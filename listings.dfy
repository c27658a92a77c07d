/**
 * The client-side listing filter shared by the Internships and Employment
 * pages, and the filter criteria each page keeps as state.
 *
 * A listing is kept when its title or company contains the search text
 * (both lower-cased), its category (domain for internships, experience
 * level for jobs) equals the selected category or the selector is "All",
 * and likewise for its location.
 */
module Listings {
  import opened TextOps

  /** The selector value meaning "no constraint on this dimension". */
  const AllSentinel: string := "All"

  /** The timing/compensation fields, which differ between the two kinds of listing. */
  datatype Terms =
    | InternshipTerms(duration: string, stipend: string)
    | JobTerms(salary: string, employmentType: string)

  /** A job or internship record; `category` is the internship's domain or the job's level. */
  datatype Listing = Listing(
    id: nat,
    title: string,
    company: string,
    location: string,
    terms: Terms,
    category: string,
    description: string,
    requirements: seq<string>,
    posted: string)

  /** The search text and the two selector values. */
  datatype Criteria = Criteria(search: string, category: string, location: string)

  /** The criteria a page starts with and returns to on "Clear Filters". */
  const Default: Criteria := Criteria("", AllSentinel, AllSentinel)

  /** Title or company contains the search text, compared in lower case. */
  predicate SearchMatches(x: Listing, search: string)
  {
    Contains(ToLower(x.title), ToLower(search)) || Contains(ToLower(x.company), ToLower(search))
  }

  /** A selector accepts a value when it is the sentinel or equals the value exactly. */
  predicate SelectorAccepts(selected: string, value: string)
  {
    selected == AllSentinel || value == selected
  }

  /** The per-record predicate handed to `Array.filter`. */
  predicate Matches(x: Listing, c: Criteria)
  {
    && SearchMatches(x, c.search)
    && SelectorAccepts(c.category, x.category)
    && SelectorAccepts(c.location, x.location)
  }

  /** `xs.filter(x => Matches(x, c))`: the listings that satisfy the criteria, in order. */
  function Filter(xs: seq<Listing>, c: Criteria): (r: seq<Listing>)
    ensures |r| <= |xs|
    ensures forall i :: 0 <= i < |r| ==> Matches(r[i], c) && r[i] in xs
  {
    if xs == [] then []
    else (if Matches(xs[0], c) then [xs[0]] else []) + Filter(xs[1..], c)
  }

  /** The identifiers of a sequence of listings, in order. */
  function Ids(xs: seq<Listing>): (r: seq<nat>)
    ensures |r| == |xs|
    ensures forall i :: 0 <= i < |xs| ==> r[i] == xs[i].id
  {
    if xs == [] then [] else [xs[0].id] + Ids(xs[1..])
  }

  /** The identifiers of the listings whose verdict in `keep` is true, in order. */
  function SelectedIds(xs: seq<Listing>, keep: seq<bool>): seq<nat>
    requires |keep| == |xs|
  {
    if xs == [] then []
    else (if keep[0] then [xs[0].id] else []) + SelectedIds(xs[1..], keep[1..])
  }

  /** The identifiers the filter keeps, read off from the verdict on each listing. */
  lemma {:induction false} IdsOfFilter(xs: seq<Listing>, c: Criteria, keep: seq<bool>)
    requires |keep| == |xs|
    requires forall i :: 0 <= i < |xs| ==> keep[i] == Matches(xs[i], c)
    ensures Ids(Filter(xs, c)) == SelectedIds(xs, keep)
  {
    if xs != [] {
      IdsOfFilter(xs[1..], c, keep[1..]);
      var head := if Matches(xs[0], c) then [xs[0]] else [];
      assert Ids(head + Filter(xs[1..], c)) == Ids(head) + Ids(Filter(xs[1..], c));
    }
  }

  /** `idx` picks out `r` from `xs` at strictly increasing positions. */
  ghost predicate Embeds<T>(idx: seq<int>, r: seq<T>, xs: seq<T>)
  {
    && |idx| == |r|
    && (forall k :: 0 <= k < |idx| ==> 0 <= idx[k] < |xs| && r[k] == xs[idx[k]])
    && (forall k, l :: 0 <= k < l < |idx| ==> idx[k] < idx[l])
  }

  /** `r` is obtained from `xs` by deleting elements, keeping the others unaltered and in order. */
  ghost predicate IsSubsequence<T>(r: seq<T>, xs: seq<T>)
  {
    exists idx :: Embeds(idx, r, xs)
  }

  /** Positions in the tail `xs[1..]` are positions one further right in `xs`. */
  lemma EmbedsInTail<T>(idx: seq<int>, r: seq<T>, xs: seq<T>) returns (shifted: seq<int>)
    requires xs != [] && Embeds(idx, r, xs[1..])
    ensures Embeds(shifted, r, xs)
    ensures forall k :: 0 <= k < |shifted| ==> 1 <= shifted[k]
  {
    shifted := seq(|idx|, k requires 0 <= k < |idx| => idx[k] + 1);
    forall k | 0 <= k < |idx|
      ensures r[k] == xs[shifted[k]]
    {
      assert xs[1..][idx[k]] == xs[idx[k] + 1];
    }
  }

  /** A selection that avoids position 0 extends to one that also picks the head. */
  lemma EmbedsWithHead<T>(idx: seq<int>, r: seq<T>, xs: seq<T>)
    requires xs != [] && Embeds(idx, r, xs)
    requires forall k :: 0 <= k < |idx| ==> 1 <= idx[k]
    ensures Embeds([0] + idx, [xs[0]] + r, xs)
  {
    var w := [0] + idx;
    var v := [xs[0]] + r;
    assert forall k :: 1 <= k < |w| ==> w[k] == idx[k - 1] && v[k] == r[k - 1];
  }

  /** The filter result is a subsequence of the input: nothing reordered, duplicated or altered. */
  lemma {:induction false} FilterIsSubsequence(xs: seq<Listing>, c: Criteria)
    ensures IsSubsequence(Filter(xs, c), xs)
  {
    if xs == [] {
      assert Embeds([], Filter(xs, c), xs);
    } else {
      var tail := Filter(xs[1..], c);
      FilterIsSubsequence(xs[1..], c);
      var idx :| Embeds(idx, tail, xs[1..]);
      var shifted := EmbedsInTail(idx, tail, xs);
      if Matches(xs[0], c) {
        assert Filter(xs, c) == [xs[0]] + tail;
        EmbedsWithHead(shifted, tail, xs);
        assert Embeds([0] + shifted, Filter(xs, c), xs);
      } else {
        assert Filter(xs, c) == tail;
      }
    }
  }

  /** A listing is in the result exactly when it is in the input and meets the criteria. */
  lemma {:induction false} FilterMembership(xs: seq<Listing>, c: Criteria, x: Listing)
    ensures x in Filter(xs, c) <==> x in xs && Matches(x, c)
  {
    if xs != [] {
      FilterMembership(xs[1..], c, x);
      assert xs == [xs[0]] + xs[1..];
    }
  }

  /**
   * Every record of the input that meets the criteria appears in the result
   * exactly as often as in the input, and no other record appears.
   */
  lemma {:induction false} FilterMultiplicity(xs: seq<Listing>, c: Criteria, x: Listing)
    ensures multiset(Filter(xs, c))[x] == if Matches(x, c) then multiset(xs)[x] else 0
  {
    if xs != [] {
      var head := if Matches(xs[0], c) then [xs[0]] else [];
      FilterMultiplicity(xs[1..], c, x);
      assert Filter(xs, c) == head + Filter(xs[1..], c);
      assert multiset(Filter(xs, c)) == multiset(head) + multiset(Filter(xs[1..], c));
      assert xs == [xs[0]] + xs[1..];
      assert multiset(xs) == multiset([xs[0]]) + multiset(xs[1..]);
    }
  }

  /** When every listing meets the criteria, the filter keeps the whole list. */
  lemma {:induction false} FilterKeepsAllMatching(xs: seq<Listing>, c: Criteria)
    requires forall i :: 0 <= i < |xs| ==> Matches(xs[i], c)
    ensures Filter(xs, c) == xs
  {
    if xs != [] {
      FilterKeepsAllMatching(xs[1..], c);
    }
  }

  /** When no listing meets the criteria, the result is empty (an empty state, not an error). */
  lemma {:induction false} FilterDropsAllFailing(xs: seq<Listing>, c: Criteria)
    requires forall i :: 0 <= i < |xs| ==> !Matches(xs[i], c)
    ensures Filter(xs, c) == []
  {
    if xs != [] {
      FilterDropsAllFailing(xs[1..], c);
    }
  }

  /** A selected category that no listing has gives the empty result. */
  lemma UnusedCategoryGivesEmpty(xs: seq<Listing>, c: Criteria)
    requires c.category != AllSentinel
    requires forall i :: 0 <= i < |xs| ==> xs[i].category != c.category
    ensures Filter(xs, c) == []
  {
    FilterDropsAllFailing(xs, c);
  }

  /** Search text found in no title and no company gives the empty result. */
  lemma UnmatchedSearchGivesEmpty(xs: seq<Listing>, c: Criteria)
    requires forall i :: 0 <= i < |xs| ==> !SearchMatches(xs[i], c.search)
    ensures Filter(xs, c) == []
  {
    FilterDropsAllFailing(xs, c);
  }

  /** Filtering the result again with the same criteria changes nothing. */
  lemma FilterIdempotent(xs: seq<Listing>, c: Criteria)
    ensures Filter(Filter(xs, c), c) == Filter(xs, c)
  {
    FilterKeepsAllMatching(Filter(xs, c), c);
  }

  /** The empty search text matches every listing. */
  lemma EmptySearchMatches(x: Listing)
    ensures SearchMatches(x, "")
  {
    ContainsEmpty(ToLower(x.title));
  }

  /** The default criteria accept every listing, since every string includes the empty string. */
  lemma DefaultMatchesEverything(x: Listing)
    ensures Matches(x, Default)
  {
    EmptySearchMatches(x);
  }

  /** Under the default criteria the filter returns the whole list unchanged. */
  lemma FilterDefaultIsIdentity(xs: seq<Listing>)
    ensures Filter(xs, Default) == xs
  {
    forall i | 0 <= i < |xs| ensures Matches(xs[i], Default) {
      DefaultMatchesEverything(xs[i]);
    }
    FilterKeepsAllMatching(xs, Default);
  }

  /** Criteria that accept the same listings give the same result. */
  lemma {:induction false} FilterCongruent(xs: seq<Listing>, c1: Criteria, c2: Criteria)
    requires forall i :: 0 <= i < |xs| ==> (Matches(xs[i], c1) <==> Matches(xs[i], c2))
    ensures Filter(xs, c1) == Filter(xs, c2)
  {
    if xs != [] {
      FilterCongruent(xs[1..], c1, c2);
    }
  }

  /** Search texts that agree in lower case give the same result: search is case-insensitive. */
  lemma SearchIsCaseInsensitive(xs: seq<Listing>, c: Criteria, s1: string, s2: string)
    requires ToLower(s1) == ToLower(s2)
    ensures Filter(xs, c.(search := s1)) == Filter(xs, c.(search := s2))
  {
    FilterCongruent(xs, c.(search := s1), c.(search := s2));
  }

  /** Search texts that differ only in the case of their ASCII letters give the same result. */
  lemma CaseVariantSearchSameResult(xs: seq<Listing>, c: Criteria, s1: string, s2: string)
    requires |s1| == |s2|
    requires forall i :: 0 <= i < |s1| ==> SameIgnoringCase(s1[i], s2[i])
    ensures Filter(xs, c.(search := s1)) == Filter(xs, c.(search := s2))
  {
    ToLowerAlike(s1, s2);
    SearchIsCaseInsensitive(xs, c, s1, s2);
  }

  /** Searching "TECH" shows the same listings as searching "tech". */
  lemma TechSearchIgnoresCase(xs: seq<Listing>, c: Criteria)
    ensures Filter(xs, c.(search := "TECH")) == Filter(xs, c.(search := "tech"))
  {
    CaseVariantSearchSameResult(xs, c, "TECH", "tech");
  }

  /** In particular, lower-casing the search text beforehand never changes the result. */
  lemma LowerCasedSearchSameResult(xs: seq<Listing>, c: Criteria)
    ensures Filter(xs, c.(search := ToLower(c.search))) == Filter(xs, c)
  {
    ToLowerIdempotent(c.search);
    SearchIsCaseInsensitive(xs, c, ToLower(c.search), c.search);
  }

  /** A selected category or location other than "All" is matched exactly, character for character. */
  lemma SelectorsMatchExactly(xs: seq<Listing>, c: Criteria, x: Listing)
    requires x in Filter(xs, c)
    ensures c.category != AllSentinel ==> x.category == c.category
    ensures c.location != AllSentinel ==> x.location == c.location
  {
    FilterMembership(xs, c, x);
  }

  /**
   * The filter criteria a listing page holds in its three `useState` cells,
   * with the setters wired to the search box and the two selects, and the
   * "Clear Filters" action.
   */
  class FilterState {
    var searchTerm: string
    var selectedCategory: string
    var selectedLocation: string

    /** The criteria the current field values stand for. */
    function Current(): Criteria
      reads this
    {
      Criteria(searchTerm, selectedCategory, selectedLocation)
    }

    /** `useState('')`, `useState('All')`, `useState('All')`. */
    constructor ()
      ensures Current() == Default
    {
      searchTerm := "";
      selectedCategory := AllSentinel;
      selectedLocation := AllSentinel;
    }

    /** `setSearchTerm`, called with the search box's new text. */
    method SetSearchTerm(s: string)
      modifies this
      ensures Current() == old(Current()).(search := s)
    {
      searchTerm := s;
    }

    /** `setSelectedDomain` / `setSelectedLevel`, called with the chosen option. */
    method SetCategory(v: string)
      modifies this
      ensures Current() == old(Current()).(category := v)
    {
      selectedCategory := v;
    }

    /** `setSelectedLocation`, called with the chosen option. */
    method SetLocation(v: string)
      modifies this
      ensures Current() == old(Current()).(location := v)
    {
      selectedLocation := v;
    }

    /** `onClearFilters`: resets the three cells one by one; afterwards every listing is shown. */
    method ClearFilters()
      modifies this
      ensures Current() == Default
      ensures forall xs :: Filter(xs, Current()) == xs
    {
      searchTerm := "";
      selectedCategory := AllSentinel;
      selectedLocation := AllSentinel;
      forall xs: seq<Listing> ensures Filter(xs, Current()) == xs {
        FilterDefaultIsIdentity(xs);
      }
    }
  }
}
