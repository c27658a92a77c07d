/**
 * The About page's team avatars: a member's initials are the first
 * character of each space-separated piece of the name, joined together
 * (`name.split(' ').map(n => n[0]).join('')`). An empty piece has no first
 * character (`n[0]` is undefined), which `join` renders as nothing.
 */
module About {
  import opened TextOps
  import PageHeader

  /** A team member, as far as the avatar needs it. */
  datatype Member = Member(name: string, role: string, background: string)

  /** The team, in page order. */
  const Team: seq<Member> :=
    [
    Member("Sarah Johnson", "Founder & CEO", "Former Google PM with 8+ years in EdTech"),
    Member("Michael Chen", "Head of Product", "Ex-Microsoft engineer passionate about student success"),
    Member("Emily Rodriguez", "Head of Partnerships", "Former McKinsey consultant specializing in career development")
  ]

  /** `n[0]` as rendered: the first character, or nothing for the empty piece. */
  function FirstChar(n: string): (r: string)
    ensures n == "" ==> r == ""
    ensures n != "" ==> r == [n[0]]
  {
    if n == "" then "" else [n[0]]
  }

  /** `parts.map(n => n[0])`. */
  function FirstChars(parts: seq<string>): (r: seq<string>)
    ensures |r| == |parts|
    ensures forall i :: 0 <= i < |parts| ==> r[i] == FirstChar(parts[i])
  {
    seq(|parts|, i requires 0 <= i < |parts| => FirstChar(parts[i]))
  }

  /** The avatar text: `name.split(' ').map(n => n[0]).join('')`. */
  function Initials(name: string): string
  {
    Join(FirstChars(Split(name, " ")), "")
  }

  /**
   * The independent reading of the same thing: the characters of `s` that
   * are not spaces and start a word, that is, come first or right after a
   * space (`atStart` says whether the previous character was a space).
   */
  function WordStarts(s: string, atStart: bool): (r: string)
    ensures |r| <= |s|
  {
    if s == [] then ""
    else if s[0] == ' ' then WordStarts(s[1..], true)
    else (if atStart then [s[0]] else "") + WordStarts(s[1..], false)
  }

  /** Joining with the empty separator puts the first piece in front of the rest. */
  lemma JoinEmptyCons(p: string, rest: seq<string>)
    ensures Join([p] + rest, "") == p + Join(rest, "")
  {
    if rest != [] {
      assert ([p] + rest)[1..] == rest;
    }
  }

  /** Inside a word, no further word starts until the next space. */
  lemma {:induction false} NoStartsInsideWord(p: string, x: string)
    requires forall i :: 0 <= i < |p| ==> p[i] != ' '
    ensures WordStarts(p + x, false) == WordStarts(x, false)
  {
    if p != [] {
      assert (p + x)[0] == p[0] && p[0] != ' ';
      assert (p + x)[1..] == p[1..] + x;
      assert WordStarts(p + x, false) == WordStarts(p[1..] + x, false);
      NoStartsInsideWord(p[1..], x);
    } else {
      assert p + x == x;
    }
  }

  /** A word followed by a space contributes its first character, and a new word starts after the space. */
  lemma WordThenSpace(p: string, x: string)
    requires forall i :: 0 <= i < |p| ==> p[i] != ' '
    ensures WordStarts(p + " " + x, true) == FirstChar(p) + WordStarts(x, true)
  {
    if p == [] {
      assert p + " " + x == " " + x;
    } else {
      assert (p + " " + x)[1..] == p[1..] + (" " + x);
      NoStartsInsideWord(p[1..], " " + x);
      assert (" " + x)[1..] == x;
    }
  }

  /** A word alone contributes its first character. */
  lemma LastWord(p: string)
    requires forall i :: 0 <= i < |p| ==> p[i] != ' '
    ensures WordStarts(p, true) == FirstChar(p)
  {
    if p != [] {
      NoStartsInsideWord(p[1..], "");
      assert p[1..] + "" == p[1..];
    }
  }

  /** A piece without the separator " " has no space in it. */
  lemma NoSpaceInPiece(p: string)
    requires !Contains(p, " ")
    ensures forall i :: 0 <= i < |p| ==> p[i] != ' '
  {
    forall i | 0 <= i < |p|
      ensures p[i] != ' '
    {
      assert !OccursAt(p, " ", i);
      assert p[i..i + 1] == [p[i]];
    }
  }

  /**
   * The initials are the first character of every non-empty space-separated
   * segment, in order: exactly the word starts of the name.
   */
  lemma {:induction false} InitialsAreWordStarts(name: string)
    ensures Initials(name) == WordStarts(name, true)
    decreases |name|
  {
    var i := IndexOf(name, " ");
    SplitPartsLackSeparator(name, " ");
    if i < 0 {
      SplitNowhere(name, " ");
      assert Split(name, " ")[0] == name;
      NoSpaceInPiece(name);
      LastWord(name);
    } else {
      var word := name[..i];
      var rest := name[i + 1..];
      IndexOfFinds(name, " ");
      SplitAtFirst(name, " ", i);
      ConsParts(word, Split(rest, " "));
      NoSpaceInPiece(word);
      assert FirstChars([word] + Split(rest, " ")) == [FirstChar(word)] + FirstChars(Split(rest, " "));
      JoinEmptyCons(FirstChar(word), FirstChars(Split(rest, " ")));
      InitialsAreWordStarts(rest);
      AroundSlice(name, i, i + 1);
      WordThenSpace(word, rest);
    }
  }

  /** A name without a space yields its first character alone. */
  lemma SingleWordInitial(name: string)
    requires !Contains(name, " ")
    ensures Initials(name) == FirstChar(name)
  {
    SplitWithoutSeparator(name, " ");
  }

  /** A leading space gives an empty first segment, which contributes nothing. */
  lemma LeadingSpaceIgnored(name: string)
    ensures Initials(" " + name) == Initials(name)
  {
    InitialsAreWordStarts(" " + name);
    InitialsAreWordStarts(name);
    assert (" " + name)[1..] == name;
  }

  /** Spaces never yield a character of their own. */
  lemma {:induction false} TrailingSpaceIgnored(s: string, atStart: bool)
    ensures WordStarts(s + " ", atStart) == WordStarts(s, atStart)
  {
    if s == [] {
      assert WordStarts(" ", atStart) == WordStarts("", true);
    } else {
      assert (s + " ")[1..] == s[1..] + " ";
      TrailingSpaceIgnored(s[1..], s[0] == ' ');
    }
  }

  /** A trailing space gives an empty last segment, which contributes nothing. */
  lemma TrailingSpaceInInitials(name: string)
    ensures Initials(name + " ") == Initials(name)
  {
    InitialsAreWordStarts(name + " ");
    InitialsAreWordStarts(name);
    TrailingSpaceIgnored(name, true);
  }

  /** A doubled space gives an empty middle segment, which contributes nothing. */
  lemma DoubledSpaceIgnored(a: string, b: string)
    ensures Initials(a + "  " + b) == Initials(a + " " + b)
  {
    InitialsAreWordStarts(a + "  " + b);
    InitialsAreWordStarts(a + " " + b);
    DoubledSpaceInWordStarts(a, b, true);
  }

  /** In the word-start reading, two spaces act as one. */
  lemma {:induction false} DoubledSpaceInWordStarts(a: string, b: string, atStart: bool)
    ensures WordStarts(a + "  " + b, atStart) == WordStarts(a + " " + b, atStart)
  {
    if a == [] {
      assert ("  " + b)[1..] == " " + b;
    } else {
      assert (a + "  " + b)[1..] == a[1..] + "  " + b;
      assert (a + " " + b)[1..] == a[1..] + " " + b;
      DoubledSpaceInWordStarts(a[1..], b, a[0] == ' ');
    }
  }

  /** A two-word name yields the first characters of its two words. */
  lemma TwoWordInitials(first: string, last: string)
    requires first != "" && last != ""
    requires forall i :: 0 <= i < |first| ==> first[i] != ' '
    requires forall i :: 0 <= i < |last| ==> last[i] != ' '
    ensures Initials(first + " " + last) == [first[0], last[0]]
  {
    InitialsAreWordStarts(first + " " + last);
    WordThenSpace(first, last);
    LastWord(last);
  }

  /** The first member's avatar. */
  lemma SarahJohnsonInitials()
    ensures Initials("Sarah Johnson") == "SJ"
  {
    TwoWordInitials("Sarah", "Johnson");
    assert "Sarah" + " " + "Johnson" == "Sarah Johnson";
  }

  /** The second member's avatar. */
  lemma MichaelChenInitials()
    ensures Initials("Michael Chen") == "MC"
  {
    TwoWordInitials("Michael", "Chen");
    assert "Michael" + " " + "Chen" == "Michael Chen";
  }

  /** The third member's avatar. */
  lemma EmilyRodriguezInitials()
    ensures Initials("Emily Rodriguez") == "ER"
  {
    TwoWordInitials("Emily", "Rodriguez");
    assert "Emily" + " " + "Rodriguez" == "Emily Rodriguez";
  }

  /** The team members' avatars read "SJ", "MC" and "ER". */
  lemma TeamInitials()
    ensures Initials(Team[0].name) == "SJ"
    ensures Initials(Team[1].name) == "MC"
    ensures Initials(Team[2].name) == "ER"
  {
    SarahJohnsonInitials();
    MichaelChenInitials();
    EmilyRodriguezInitials();
  }

  /** The page heading: the accent word closes the title and occurs there once, so the last fragment is empty. */
  lemma Heading()
    ensures PageHeader.RenderTitle("About " + "Fynally", PageHeader.Some("Fynally")) == PageHeader.Accented("About ", "Fynally", "")
    ensures PageHeader.Displayed(PageHeader.RenderTitle("About " + "Fynally", PageHeader.Some("Fynally"))) == "About " + "Fynally"
  {
    var title := "About " + "Fynally";
    var w := "Fynally";
    forall j | TextOps.OccursAt(title, w, j)
      ensures j == 6
    {
      assert title[j..j + |w|][0] == title[j];
    }
    PageHeader.SingleOccurrenceRoundTrips(title, w, 6);
    assert title[..6] == "About ";
    assert title[6 + |w|..] == "";
  }
}
