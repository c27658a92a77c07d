/**
 * The JavaScript string operations that the site's logic is built from,
 * over `string` (= `seq<char>`): `toLowerCase` (ASCII only), `includes`,
 * `indexOf`, `split` with a non-empty separator, and `join`.
 */
module TextOps {

  /** `c.toLowerCase()` for one character, restricted to ASCII letters. */
  function LowerChar(c: char): (r: char)
    ensures !('A' <= r <= 'Z')
    ensures !('A' <= c <= 'Z') ==> r == c
    ensures 'A' <= c <= 'Z' ==> 'a' <= r <= 'z' && r as int - 'a' as int == c as int - 'A' as int
  {
    if 'A' <= c <= 'Z' then (c as int + 32) as char else c
  }

  /** `s.toLowerCase()`: lower-cases every ASCII capital and keeps every other character. */
  function ToLower(s: string): (r: string)
    ensures |r| == |s|
    ensures forall i :: 0 <= i < |s| ==> r[i] == LowerChar(s[i])
  {
    seq(|s|, i requires 0 <= i < |s| => LowerChar(s[i]))
  }

  /** Lower-casing twice is lower-casing once. */
  lemma ToLowerIdempotent(s: string)
    ensures ToLower(ToLower(s)) == ToLower(s)
  {
    var once := ToLower(s);
    assert forall i :: 0 <= i < |once| ==> LowerChar(once[i]) == once[i];
  }

  /** The characters that lower-case to a letter are that letter and its capital. */
  lemma LowerCharIs(c: char, lower: char, upper: char)
    requires 'A' <= upper <= 'Z' && LowerChar(upper) == lower
    ensures LowerChar(c) == lower <==> c == lower || c == upper
  {
  }

  /** A string without ASCII capitals is its own lower case. */
  lemma ToLowerWithoutCapitals(s: string)
    requires forall i :: 0 <= i < |s| ==> !('A' <= s[i] <= 'Z')
    ensures ToLower(s) == s
  {
  }

  /** `a` and `b` are the same character, or the same ASCII letter in its two cases. */
  predicate SameIgnoringCase(a: char, b: char)
  {
    || a == b
    || ('A' <= a <= 'Z' && b as int == a as int + 32)
    || ('A' <= b <= 'Z' && a as int == b as int + 32)
  }

  /** Two characters lower-case alike exactly when they differ at most in ASCII letter case. */
  lemma LowerCharAlike(a: char, b: char)
    ensures LowerChar(a) == LowerChar(b) <==> SameIgnoringCase(a, b)
  {
  }

  /**
   * Two strings lower-case alike exactly when they have the same length and,
   * position by position, differ at most in ASCII letter case.
   */
  lemma ToLowerAlike(s1: string, s2: string)
    ensures ToLower(s1) == ToLower(s2) <==>
      |s1| == |s2| && forall i :: 0 <= i < |s1| ==> SameIgnoringCase(s1[i], s2[i])
  {
    if |s1| == |s2| {
      forall i | 0 <= i < |s1|
        ensures ToLower(s1)[i] == ToLower(s2)[i] <==> SameIgnoringCase(s1[i], s2[i])
      {
        LowerCharAlike(s1[i], s2[i]);
      }
    }
  }

  /** A prefix of `s` is the concatenation of its consecutive slices. */
  lemma PrefixSlices(s: string, a: int, b: int, c: int)
    requires 0 <= a <= b <= c <= |s|
    ensures s[..c] == s[..a] + s[a..b] + s[b..c]
  {
  }

  /** `s` is what precedes a slice, the slice, and what follows it. */
  lemma AroundSlice(s: string, i: int, j: int)
    requires 0 <= i <= j <= |s|
    ensures s == s[..i] + s[i..j] + s[j..]
  {
  }

  /** `t` occurs in `s` starting at index `k`. */
  predicate OccursAt(s: string, t: string, k: int)
  {
    0 <= k && k + |t| <= |s| && s[k..k + |t|] == t
  }

  /** An occurrence in the tail `s[1..]` is an occurrence in `s`, one further right. */
  lemma OccursAtTail(s: string, t: string, k: int)
    requires |s| > 0 && 1 <= k
    ensures OccursAt(s, t, k) <==> OccursAt(s[1..], t, k - 1)
  {
    if k + |t| <= |s| {
      assert s[1..][k - 1..k - 1 + |t|] == s[k..k + |t|];
    }
  }

  /** `s.indexOf(t)`: the first position where `t` occurs in `s`, or -1 when it occurs nowhere. */
  function IndexOf(s: string, t: string): (r: int)
    ensures -1 <= r
    ensures 0 <= r ==> r + |t| <= |s|
    decreases |s|
  {
    if t <= s then 0
    else if s == [] then -1
    else
      var j := IndexOf(s[1..], t);
      if j == -1 then -1 else j + 1
  }

  /** `indexOf` finds an occurrence with none before it, and -1 means there is none at all. */
  lemma {:induction false} IndexOfFinds(s: string, t: string)
    ensures 0 <= IndexOf(s, t) ==>
      OccursAt(s, t, IndexOf(s, t)) && forall k :: 0 <= k < IndexOf(s, t) ==> !OccursAt(s, t, k)
    ensures IndexOf(s, t) == -1 ==> forall k :: !OccursAt(s, t, k)
    decreases |s|
  {
    if t <= s {
      assert s[0..|t|] == t;
    } else if s == [] {
    } else {
      IndexOfFinds(s[1..], t);
      forall k | 1 <= k {
        OccursAtTail(s, t, k);
      }
      assert !OccursAt(s, t, 0);
    }
  }

  /** Any occurrence with no earlier one is the one `indexOf` finds. */
  lemma IndexOfIsFirst(s: string, t: string, j: int)
    requires OccursAt(s, t, j)
    requires forall k :: 0 <= k < j ==> !OccursAt(s, t, k)
    ensures IndexOf(s, t) == j
  {
    IndexOfFinds(s, t);
  }

  /** An occurrence in the suffix `s[d..]` is an occurrence in `s`, `d` further right. */
  lemma OccursAtSuffix(s: string, t: string, d: int, j: int)
    requires 0 <= d <= |s| && 0 <= j
    ensures OccursAt(s[d..], t, j) <==> OccursAt(s, t, d + j)
  {
    if d + j + |t| <= |s| {
      assert s[d..][j..j + |t|] == s[d + j..d + j + |t|];
    }
  }

  /** Searching from `d` on finds the first occurrence at or after `d`, shifted left by `d`. */
  lemma IndexOfInSuffix(s: string, t: string, d: int, m: int)
    requires 0 <= d <= m && OccursAt(s, t, m)
    requires forall j :: d <= j < m ==> !OccursAt(s, t, j)
    ensures IndexOf(s[d..], t) == m - d
  {
    forall j | 0 <= j < m - d
      ensures !OccursAt(s[d..], t, j)
    {
      OccursAtSuffix(s, t, d, j);
    }
    OccursAtSuffix(s, t, d, m - d);
    IndexOfIsFirst(s[d..], t, m - d);
  }

  /** `s.includes(t)`: `t` occurs somewhere in `s`. */
  predicate Contains(s: string, t: string)
  {
    exists k :: 0 <= k <= |s| - |t| && OccursAt(s, t, k)
  }

  /** `s.includes(t)` holds exactly when `s.indexOf(t)` is not -1. */
  lemma ContainsIffIndexOf(s: string, t: string)
    ensures Contains(s, t) <==> IndexOf(s, t) != -1
  {
    IndexOfFinds(s, t);
  }

  /** `s.includes('')` always holds. */
  lemma ContainsEmpty(s: string)
    ensures Contains(s, "")
  {
    assert OccursAt(s, "", 0);
  }

  /** Lower-cased `s` contains `t` when, up to case, `t` occurs in `s` at index `k`. */
  lemma OccursIgnoringCase(s: string, t: string, k: nat)
    requires k + |t| <= |s|
    requires forall i :: 0 <= i < |t| ==> LowerChar(s[k + i]) == t[i]
    ensures Contains(ToLower(s), t)
  {
    assert ToLower(s)[k..k + |t|] == t;
    assert OccursAt(ToLower(s), t, k);
  }

  /**
   * Lower-cased `s` does not contain `t` when no two adjacent characters of
   * `s` are, in either case, the first two letters of `t`; `upper0` and
   * `upper1` are the capitals of those letters.
   */
  lemma AbsentPairIgnoringCase(s: string, t: string, upper0: char, upper1: char)
    requires |t| >= 2
    requires 'A' <= upper0 <= 'Z' && LowerChar(upper0) == t[0]
    requires 'A' <= upper1 <= 'Z' && LowerChar(upper1) == t[1]
    requires forall k :: 0 <= k < |s| - 1 ==>
      !((s[k] == t[0] || s[k] == upper0) && (s[k + 1] == t[1] || s[k + 1] == upper1))
    ensures !Contains(ToLower(s), t)
  {
    var low := ToLower(s);
    forall k | OccursAt(low, t, k)
      ensures false
    {
      assert low[k..k + |t|][0] == t[0] && low[k..k + |t|][1] == t[1];
      LowerCharIs(s[k], t[0], upper0);
      LowerCharIs(s[k + 1], t[1], upper1);
    }
  }

  /** A prefix of `s` that ends before the first occurrence of `t` does not contain `t`. */
  lemma NoOccurrenceBefore(s: string, t: string, i: int)
    requires t != "" && 0 <= i <= |s|
    requires forall k :: 0 <= k < i ==> !OccursAt(s, t, k)
    ensures !Contains(s[..i], t)
  {
    forall k | OccursAt(s[..i], t, k)
      ensures false
    {
      assert s[..i][k..k + |t|] == s[k..k + |t|];
      assert OccursAt(s, t, k);
    }
  }

  /**
   * `s.split(sep)` for a non-empty separator: the pieces of `s` between the
   * successive leftmost non-overlapping occurrences of `sep`.
   */
  function Split(s: string, sep: string): (parts: seq<string>)
    requires sep != ""
    ensures |parts| >= 1
    decreases |s|
  {
    var i := IndexOf(s, sep);
    if i < 0 then [s] else [s[..i]] + Split(s[i + |sep|..], sep)
  }

  /** Where the separator does not occur, the string is its own only piece. */
  lemma SplitNowhere(s: string, sep: string)
    requires sep != "" && IndexOf(s, sep) < 0
    ensures Split(s, sep) == [s]
  {
  }

  /** Where the separator first occurs at `i`, the first piece is what precedes it, followed by the split of what follows. */
  lemma SplitAtFirst(s: string, sep: string, i: int)
    requires sep != "" && IndexOf(s, sep) == i && 0 <= i
    ensures Split(s, sep) == [s[..i]] + Split(s[i + |sep|..], sep)
  {
  }

  /** The head and the tail of a sequence built by prepending one element. */
  lemma ConsParts<T>(a: T, r: seq<T>)
    ensures ([a] + r)[0] == a
    ensures ([a] + r)[1..] == r
    ensures |r| > 0 ==> ([a] + r)[1] == r[0]
  {
  }

  /** With the first occurrence at `k`, the first two pieces are what precedes it and the first piece of what follows. */
  lemma FirstTwoPieces(s: string, sep: string, k: int)
    requires sep != "" && IndexOf(s, sep) == k && 0 <= k
    ensures |Split(s, sep)| >= 2
    ensures Split(s, sep)[0] == s[..k]
    ensures Split(s, sep)[1] == Split(s[k + |sep|..], sep)[0]
  {
    SplitAtFirst(s, sep, k);
    ConsParts(s[..k], Split(s[k + |sep|..], sep));
  }

  /**
   * With the first occurrence at `k`, ending at `d`, and the next one at `m`,
   * the second piece is the text between the two.
   */
  lemma SecondPieceBetween(s: string, sep: string, k: int, d: int, m: int)
    requires sep != "" && IndexOf(s, sep) == k && 0 <= k && d == k + |sep|
    requires IndexOf(s[d..], sep) == m - d && d <= m
    ensures |Split(s, sep)| >= 2
    ensures Split(s, sep)[1] == s[d..m]
  {
    var rest := s[d..];
    assert s[k + |sep|..] == rest;
    FirstTwoPieces(s, sep, k);
    FirstTwoPieces(rest, sep, m - d);
    PrefixOfSuffix(s, d, m - d);
    assert Split(s, sep)[1] == Split(rest, sep)[0] == rest[..m - d];
  }

  /** A prefix of a suffix is a slice. */
  lemma PrefixOfSuffix(s: string, d: int, e: int)
    requires 0 <= d && 0 <= e && d + e <= |s|
    ensures s[d..][..e] == s[d..d + e]
  {
  }

  /** No piece produced by `split` contains the separator. */
  lemma {:induction false} SplitPartsLackSeparator(s: string, sep: string)
    requires sep != ""
    ensures forall i :: 0 <= i < |Split(s, sep)| ==> !Contains(Split(s, sep)[i], sep)
    decreases |s|
  {
    var i := IndexOf(s, sep);
    IndexOfFinds(s, sep);
    if i >= 0 {
      var rest := s[i + |sep|..];
      SplitAtFirst(s, sep, i);
      NoOccurrenceBefore(s, sep, i);
      SplitPartsLackSeparator(rest, sep);
      ConsParts(s[..i], Split(rest, sep));
      assert forall j :: 1 <= j < |Split(s, sep)| ==> Split(s, sep)[j] == Split(rest, sep)[j - 1];
    } else {
      SplitNowhere(s, sep);
      NoOccurrenceBefore(s, sep, |s|);
      assert s[..|s|] == s;
    }
  }

  /** `parts.join(sep)`. */
  function Join(parts: seq<string>, sep: string): string
  {
    if parts == [] then ""
    else if |parts| == 1 then parts[0]
    else parts[0] + sep + Join(parts[1..], sep)
  }

  /** Joining puts the first piece and the separator in front of the rest. */
  lemma JoinCons(p: string, rest: seq<string>, sep: string)
    requires rest != []
    ensures Join([p] + rest, sep) == p + sep + Join(rest, sep)
  {
    ConsParts(p, rest);
  }

  /** Splitting and joining back with the same separator gives the original string. */
  lemma {:induction false} JoinSplit(s: string, sep: string)
    requires sep != ""
    ensures Join(Split(s, sep), sep) == s
    decreases |s|
  {
    var i := IndexOf(s, sep);
    if i >= 0 {
      var rest := s[i + |sep|..];
      IndexOfFinds(s, sep);
      SplitAtFirst(s, sep, i);
      JoinCons(s[..i], Split(rest, sep), sep);
      JoinSplit(rest, sep);
      AroundSlice(s, i, i + |sep|);
    } else {
      SplitNowhere(s, sep);
    }
  }

  /** A string splits into itself alone exactly when it does not contain the separator. */
  lemma SplitWithoutSeparator(s: string, sep: string)
    requires sep != ""
    ensures !Contains(s, sep) <==> Split(s, sep) == [s]
  {
    ContainsIffIndexOf(s, sep);
    var i := IndexOf(s, sep);
    if i >= 0 {
      SplitAtFirst(s, sep, i);
    } else {
      SplitNowhere(s, sep);
    }
  }
}
