/**
 * The header's breadcrumb (`getBreadcrumb`): the non-empty "/"-segments of the pathname,
 * each title-cased word by word ("user-profile" reads "User Profile"), the last one
 * marked as the current page and every other one followed by a "/" separator.
 */
module Breadcrumb {
  import opened Text

  /** One crumb: its text, whether it has the "current" style, whether a "/" separator follows it. */
  datatype Crumb = Crumb(text: string, current: bool, separator: bool)

  /** The breadcrumb is either the plain title "Dashboard" or a trail of crumbs. */
  datatype Breadcrumb = Title(title: string) | Trail(crumbs: seq<Crumb>)

  /** `word.charAt(0).toUpperCase() + word.slice(1)`. */
  function Capitalize(word: string): (r: string)
    ensures |r| == |word|
  {
    if word == [] then [] else [UpperChar(word[0])] + word[1..]
  }

  function CapitalizeAll(words: seq<string>): (r: seq<string>)
    ensures |r| == |words| && forall i :: 0 <= i < |words| ==> r[i] == Capitalize(words[i])
  {
    if words == [] then [] else [Capitalize(words[0])] + CapitalizeAll(words[1..])
  }

  /**
   * `part.split("-").map(capitalize).join(" ")`: the segment with every "-" turned into a
   * space and the first character of each word upper-cased; nothing else changes.
   */
  function FormatSegment(part: string): (r: string)
    ensures r == Titled(part)
  {
    JoinCapitalizedIsTitled(Split(part, '-'));
    Join(CapitalizeAll(Split(part, '-')), ' ')
  }

  /** The breadcrumb for a pathname. */
  function GetBreadcrumb(pathname: string): (b: Breadcrumb)
    ensures b.Title? <==> Segments(pathname) == []
    ensures b.Title? ==> b.title == "Dashboard"
    ensures b.Trail? ==> |b.crumbs| == |Segments(pathname)|
    ensures b.Trail? ==> forall i :: 0 <= i < |b.crumbs| ==>
              b.crumbs[i].text == FormatSegment(Segments(pathname)[i])
              && (b.crumbs[i].current <==> i == |b.crumbs| - 1)
              && (b.crumbs[i].separator <==> !b.crumbs[i].current)
  {
    var parts := Segments(pathname);
    if |parts| == 0 then Title("Dashboard")
    else Trail(seq(|parts|, i requires 0 <= i < |parts| =>
                 Crumb(FormatSegment(parts[i]), i == |parts| - 1, i < |parts| - 1)))
  }

  /** Character `i` of a title-cased segment: "-" becomes a space, a word's first letter is upper-cased. */
  function TitledAt(s: string, i: nat): char
    requires i < |s|
  {
    if s[i] == '-' then ' '
    else if i == 0 || s[i - 1] == '-' then UpperChar(s[i])
    else s[i]
  }

  /** The title-cased segment, character by character. */
  function Titled(s: string): (r: string)
    ensures |r| == |s| && forall i :: 0 <= i < |s| ==> r[i] == TitledAt(s, i)
  {
    seq(|s|, i requires 0 <= i < |s| => TitledAt(s, i))
  }

  lemma TitledSingleWord(w: string)
    requires '-' !in w
    ensures Titled(w) == Capitalize(w)
  {
    if w != [] {
      assert forall i :: 0 <= i < |w| ==> Titled(w)[i] == Capitalize(w)[i] by {
        forall i | 0 <= i < |w| ensures Titled(w)[i] == Capitalize(w)[i] {
          assert w[i] != '-';
          if i > 0 { assert w[i - 1] != '-'; }
        }
      }
    }
  }

  /** Title-casing across a hyphen: the left word, a space, then the right side title-cased on its own. */
  lemma TitledAcrossHyphen(w: string, t: string)
    requires '-' !in w
    ensures Titled(w + "-" + t) == Titled(w) + " " + Titled(t)
  {
    var s := w + "-" + t;
    var lhs, rhs := Titled(s), Titled(w) + " " + Titled(t);
    forall i | 0 <= i < |s| ensures lhs[i] == rhs[i] {
      if i < |w| {
        assert s[i] == w[i];
        if i > 0 { assert s[i - 1] == w[i - 1]; }
      } else if i > |w| {
        var j := i - |w| - 1;
        assert s[i] == t[j];
        if j > 0 { assert s[i - 1] == t[j - 1]; } else { assert s[i - 1] == '-'; }
        assert rhs[i] == Titled(t)[j];
      }
    }
  }

  lemma {:induction false} JoinCapitalizedIsTitled(words: seq<string>)
    requires |words| >= 1
    requires forall w | w in words :: '-' !in w
    ensures Join(CapitalizeAll(words), ' ') == Titled(Join(words, '-'))
    decreases |words|
  {
    assert words[0] in words;
    TitledSingleWord(words[0]);
    if |words| > 1 {
      assert forall w | w in words[1..] :: w in words;
      JoinCapitalizedIsTitled(words[1..]);
      var t := Join(words[1..], '-');
      TitledAcrossHyphen(words[0], t);
      assert CapitalizeAll(words)[1..] == CapitalizeAll(words[1..]);
    }
  }

  /** A segment has one more word than hyphens; empty words between doubled hyphens are kept. */
  lemma WordCount(part: string)
    ensures |Split(part, '-')| == multiset(part)['-'] + 1
  {
    SplitCount(part, '-', "");
  }

  /** A two-word segment reads as its two words capitalised, with a space between them. */
  lemma FormatTwoWords(a: string, b: string)
    requires '-' !in a && '-' !in b
    ensures FormatSegment(a + "-" + b) == Capitalize(a) + " " + Capitalize(b)
  {
    TitledAcrossHyphen(a, b);
    TitledSingleWord(a);
    TitledSingleWord(b);
  }

  /** Example: "user-profile" reads "User Profile". */
  lemma FormatUserProfile()
    ensures FormatSegment("user-profile") == "User Profile"
  {
    FormatTwoWords("user", "profile");
    assert "user" + "-" + "profile" == "user-profile";
    assert Capitalize("user") + " " + Capitalize("profile") == "User Profile";
  }

  /** Example: the empty word between two hyphens is kept, so "a--b" reads "A  B". */
  lemma FormatDoubledHyphen()
    ensures FormatSegment("a--b") == "A  B"
  {
    var s := "a--b";
    assert UpperChar('a') == 'A' && UpperChar('b') == 'B';
    assert Titled(s) == [TitledAt(s, 0), TitledAt(s, 1), TitledAt(s, 2), TitledAt(s, 3)];
  }

  /** The root and the empty pathname show the title. */
  lemma RootIsTitle()
    ensures GetBreadcrumb("/") == Title("Dashboard")
    ensures GetBreadcrumb("") == Title("Dashboard")
  {
    assert Split("/", '/') == ["", ""];
  }

  /** A normal-form path gives one crumb per segment, in order. */
  lemma NormalPathCrumbs(segs: seq<string>)
    requires segs != []
    requires forall w | w in segs :: IsSegment(w)
    ensures GetBreadcrumb(PathOf(segs)).Trail?
    ensures |GetBreadcrumb(PathOf(segs)).crumbs| == |segs|
    ensures forall i :: 0 <= i < |segs| ==> GetBreadcrumb(PathOf(segs)).crumbs[i].text == Titled(segs[i])
  {
    SegmentsOfPath(segs);
  }

  /** Leading, trailing and doubled slashes add no crumbs: a "/" splits the trail into the crumbs before and after it. */
  lemma SlashesSplitTrail(x: string, t: string)
    ensures Segments(x + "/" + t) == Segments(x) + Segments(t)
    ensures Segments("/" + t) == Segments(t) && Segments(t + "/") == Segments(t)
  {
    SegmentsAround(x, t);
    SegmentsAround("", t);
    SegmentsAround(t, "");
    assert "" + "/" + t == "/" + t;
    assert t + "/" + "" == t + "/";
    assert Segments("") == [];
  }
}
