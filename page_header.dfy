/**
 * The page header's title: when an accent word is given, the title is split
 * on it and shown as the first piece, the accent word in its accent colour,
 * then the second piece. A missing second piece (`parts[1]` undefined)
 * renders as nothing.
 */
module PageHeader {
  import opened TextOps

  datatype Option<T> = None | Some(value: T)

  /** What `renderTitle` returns: the plain title, or three consecutive fragments. */
  datatype Title =
    | Plain(text: string)
    | Accented(before: string, accent: string, after: string)

  /** `parts[i]` as rendered: the piece when it exists, nothing when it is undefined. */
  function PartOrEmpty(parts: seq<string>, i: nat): (r: string)
    ensures i < |parts| ==> r == parts[i]
    ensures |parts| <= i ==> r == ""
  {
    if i < |parts| then parts[i] else ""
  }

  /** `accentWord` is truthy: present and not the empty string. */
  predicate IsTruthy(accentWord: Option<string>)
  {
    accentWord.Some? && accentWord.value != ""
  }

  /** `renderTitle()`. */
  function RenderTitle(title: string, accentWord: Option<string>): (r: Title)
    ensures r.Plain? <==> !IsTruthy(accentWord)
    ensures r.Plain? ==> r.text == title
    ensures r.Accented? ==> r.accent == accentWord.value
  {
    if IsTruthy(accentWord) then
      var parts := Split(title, accentWord.value);
      Accented(parts[0], accentWord.value, PartOrEmpty(parts, 1))
    else
      Plain(title)
  }

  /** The text the heading displays, fragments side by side. */
  function Displayed(r: Title): string
  {
    match r
    case Plain(text) => text
    case Accented(before, accent, after) => before + accent + after
  }

  /** Without an accent word, or with the empty one, the title is shown unchanged. */
  lemma NoAccentShowsTitle(title: string, accentWord: Option<string>)
    requires accentWord == None || accentWord == Some("")
    ensures Displayed(RenderTitle(title, accentWord)) == title
  {
  }

  /** The accent span always holds exactly the accent word. */
  lemma AccentSpanIsAccentWord(title: string, w: string)
    requires w != ""
    ensures RenderTitle(title, Some(w)).Accented?
    ensures RenderTitle(title, Some(w)).accent == w
  {
  }

  /** `renderTitle` for a non-empty accent word: the first two pieces of the split around it. */
  lemma RenderWithWord(title: string, w: string)
    requires w != ""
    ensures RenderTitle(title, Some(w)) == Accented(Split(title, w)[0], w, PartOrEmpty(Split(title, w), 1))
  {
  }

  /**
   * The first fragment is the part of the title before the first occurrence,
   * at `k`, of the accent word; it does not contain the accent word.
   */
  lemma BeforeIsPrefixBeforeFirst(title: string, w: string, k: int)
    requires w != "" && OccursAt(title, w, k)
    requires forall j :: 0 <= j < k ==> !OccursAt(title, w, j)
    ensures RenderTitle(title, Some(w)).before == title[..k]
    ensures !Contains(RenderTitle(title, Some(w)).before, w)
  {
    IndexOfIsFirst(title, w, k);
    FirstTwoPieces(title, w, k);
    NoOccurrenceBefore(title, w, k);
  }

  /**
   * When the accent word does not occur, the whole title is the first piece
   * and there is no second one: the heading shows the title followed by the
   * accent word.
   */
  lemma AbsentAccentIsAppended(title: string, w: string)
    requires w != "" && !Contains(title, w)
    ensures RenderTitle(title, Some(w)) == Accented(title, w, "")
    ensures Displayed(RenderTitle(title, Some(w))) == title + w
  {
    SplitWithoutSeparator(title, w);
    RenderWithWord(title, w);
  }

  /**
   * When the accent word occurs first at `k` and the text after that
   * occurrence does not contain it (any later occurrence overlaps the first),
   * the fragments are the text before and after it, and the heading shows the
   * title unchanged.
   */
  lemma RestWithoutAccentRoundTrips(title: string, w: string, k: int)
    requires w != "" && OccursAt(title, w, k)
    requires forall j :: 0 <= j < k ==> !OccursAt(title, w, j)
    requires !Contains(title[k + |w|..], w)
    ensures RenderTitle(title, Some(w)) == Accented(title[..k], w, title[k + |w|..])
    ensures Displayed(RenderTitle(title, Some(w))) == title
  {
    IndexOfIsFirst(title, w, k);
    FirstTwoPieces(title, w, k);
    SplitWithoutSeparator(title[k + |w|..], w);
    RenderWithWord(title, w);
    AroundSlice(title, k, k + |w|);
  }

  /**
   * When the accent word occurs exactly once, at `k`, the fragments are the
   * text before and after it, and the heading shows the title unchanged.
   */
  lemma SingleOccurrenceRoundTrips(title: string, w: string, k: int)
    requires w != "" && OccursAt(title, w, k)
    requires forall j :: OccursAt(title, w, j) ==> j == k
    ensures RenderTitle(title, Some(w)) == Accented(title[..k], w, title[k + |w|..])
    ensures Displayed(RenderTitle(title, Some(w))) == title
  {
    var rest := title[k + |w|..];
    forall j | 0 <= j <= |rest| - |w| && OccursAt(rest, w, j)
      ensures false
    {
      OccursAtSuffix(title, w, k + |w|, j);
    }
    RestWithoutAccentRoundTrips(title, w, k);
  }

  /** Overlapping occurrences are not split apart: "aaa" accented on "aa" reads unchanged. */
  lemma OverlappingOccurrenceIsKept()
    ensures RenderTitle("aaa", Some("aa")) == Accented("", "aa", "a")
    ensures Displayed(RenderTitle("aaa", Some("aa"))) == "aaa"
  {
    var title := "aaa";
    assert title[0..2] == "aa";
    assert title[2..] == "a";
    RestWithoutAccentRoundTrips(title, "aa", 0);
    assert title[..0] == "";
  }

  /** With the first occurrence at `k` and the next at `m`, the fragments are the text before `k` and the text between the two. */
  lemma FragmentsAroundTwoOccurrences(title: string, w: string, k: int, m: int)
    requires w != "" && OccursAt(title, w, k)
    requires forall j :: 0 <= j < k ==> !OccursAt(title, w, j)
    requires k + |w| <= m && OccursAt(title, w, m)
    requires forall j :: k + |w| <= j < m ==> !OccursAt(title, w, j)
    ensures RenderTitle(title, Some(w)) == Accented(title[..k], w, title[k + |w|..m])
  {
    IndexOfIsFirst(title, w, k);
    var d := k + |w|;
    IndexOfInSuffix(title, w, d, m);
    FirstTwoPieces(title, w, k);
    SecondPieceBetween(title, w, k, d, m);
    RenderWithWord(title, w);
  }

  /**
   * When the accent word occurs first at `k` and next at `m` (not
   * overlapping the first), the second fragment stops at `m`: everything from
   * the second occurrence on is dropped from the heading.
   */
  lemma LaterOccurrencesAreDropped(title: string, w: string, k: int, m: int)
    requires w != "" && OccursAt(title, w, k)
    requires forall j :: 0 <= j < k ==> !OccursAt(title, w, j)
    requires k + |w| <= m && OccursAt(title, w, m)
    requires forall j :: k + |w| <= j < m ==> !OccursAt(title, w, j)
    ensures Displayed(RenderTitle(title, Some(w))) == title[..m]
    ensures |Displayed(RenderTitle(title, Some(w)))| < |title|
  {
    var d := k + |w|;
    FragmentsAroundTwoOccurrences(title, w, k, m);
    assert title[k..d] == w;
    PrefixSlices(title, k, d, m);
  }
}
