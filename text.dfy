/**
 * String helpers shared by the navigation, breadcrumb and screen-lookup models:
 * ASCII case mapping (the model restricts `toUpperCase`/`toLowerCase` to ASCII),
 * JavaScript's `String.prototype.split` on a single character and its inverse
 * `Array.prototype.join`, and the "/"-segments of a path.
 */
module Text {

  function UpperChar(c: char): char {
    if 'a' <= c <= 'z' then (c as int - 32) as char else c
  }

  function LowerChar(c: char): char {
    if 'A' <= c <= 'Z' then (c as int + 32) as char else c
  }

  /** `s.toLowerCase()` on ASCII letters. */
  function ToLower(s: string): (r: string)
    ensures |r| == |s|
    ensures forall i :: 0 <= i < |s| ==> r[i] == LowerChar(s[i])
  {
    seq(|s|, i requires 0 <= i < |s| => LowerChar(s[i]))
  }

  /** Lower-casing twice is lower-casing once. */
  lemma ToLowerIdempotent(s: string)
    ensures ToLower(ToLower(s)) == ToLower(s)
  {
  }

  /** `s.split(sep)`: the pieces between occurrences of `sep`, empty pieces included. */
  function Split(s: string, sep: char): (r: seq<string>)
    ensures |r| >= 1
    ensures forall w | w in r :: sep !in w
    ensures Join(r, sep) == s
  {
    SplitPieces(s, sep, "");
    JoinSplit(s, sep, "");
    assert "" + s == s;
    SplitFrom(s, sep, "")
  }

  /** Splitting `s` when `piece` has been read since the last separator. */
  function SplitFrom(s: string, sep: char, piece: string): (r: seq<string>)
    ensures |r| >= 1
    decreases |s|
  {
    if s == [] then [piece]
    else if s[0] == sep then [piece] + SplitFrom(s[1..], sep, "")
    else SplitFrom(s[1..], sep, piece + [s[0]])
  }

  /** `ws.join(sep)` for a non-empty array of strings. */
  function Join(ws: seq<string>, sep: char): (r: string)
    requires |ws| >= 1
    ensures |r| == TotalLength(ws) + |ws| - 1
    decreases |ws|
  {
    if |ws| == 1 then ws[0] else ws[0] + [sep] + Join(ws[1..], sep)
  }

  /** The summed lengths of the pieces. */
  function TotalLength(ws: seq<string>): nat {
    if ws == [] then 0 else |ws[0]| + TotalLength(ws[1..])
  }

  /** No piece of a split contains the separator. */
  lemma {:induction false} SplitPieces(s: string, sep: char, piece: string)
    requires sep !in piece
    ensures forall w | w in SplitFrom(s, sep, piece) :: sep !in w
    decreases |s|
  {
    if s != [] {
      if s[0] == sep {
        SplitPieces(s[1..], sep, "");
      } else {
        SplitPieces(s[1..], sep, piece + [s[0]]);
      }
    }
  }

  /** Joining the pieces of a split gives back the string. */
  lemma {:induction false} JoinSplit(s: string, sep: char, piece: string)
    ensures Join(SplitFrom(s, sep, piece), sep) == piece + s
    decreases |s|
  {
    if s == [] {
      assert piece + s == piece;
    } else if s[0] == sep {
      var rest := SplitFrom(s[1..], sep, "");
      JoinSplit(s[1..], sep, "");
      assert [piece] + rest != [] && ([piece] + rest)[1..] == rest;
      assert "" + s[1..] == s[1..];
      assert piece + s == piece + [sep] + s[1..];
    } else {
      JoinSplit(s[1..], sep, piece + [s[0]]);
      assert piece + [s[0]] + s[1..] == piece + s;
    }
  }

  /** A separator-free run is added to the current piece. */
  lemma {:induction false} SplitPrefix(a: string, t: string, sep: char, piece: string)
    requires sep !in a
    ensures SplitFrom(a + t, sep, piece) == SplitFrom(t, sep, piece + a)
    decreases |a|
  {
    if a == [] {
      assert a + t == t && piece + a == piece;
    } else {
      assert (a + t)[0] == a[0] && (a + t)[1..] == a[1..] + t;
      SplitPrefix(a[1..], t, sep, piece + [a[0]]);
      assert piece + [a[0]] + a[1..] == piece + a;
    }
  }

  /** Splitting at a separator splits the two sides independently. */
  lemma {:induction false} SplitAround(x: string, t: string, sep: char, piece: string)
    ensures SplitFrom(x + [sep] + t, sep, piece) == SplitFrom(x, sep, piece) + Split(t, sep)
    decreases |x|
  {
    var s := x + [sep] + t;
    if x == [] {
      assert s[0] == sep && s[1..] == t;
    } else {
      assert s[0] == x[0] && s[1..] == x[1..] + [sep] + t;
      if x[0] == sep {
        SplitAround(x[1..], t, sep, "");
      } else {
        SplitAround(x[1..], t, sep, piece + [x[0]]);
      }
    }
  }

  /** Splitting a join of separator-free pieces gives back the pieces. */
  lemma {:induction false} SplitJoin(ws: seq<string>, sep: char)
    requires |ws| >= 1
    requires forall w | w in ws :: sep !in w
    ensures Split(Join(ws, sep), sep) == ws
    decreases |ws|
  {
    assert ws[0] in ws;
    SplitPrefix(ws[0], "", sep, "");
    assert ws[0] + "" == ws[0] && "" + ws[0] == ws[0];
    if |ws| > 1 {
      var tail := Join(ws[1..], sep);
      assert forall w | w in ws[1..] :: w in ws;
      SplitJoin(ws[1..], sep);
      SplitAround(ws[0], tail, sep, "");
      assert ws == [ws[0]] + ws[1..];
    }
  }

  /** There is one more piece than there are separators. */
  lemma {:induction false} SplitCount(s: string, sep: char, piece: string)
    ensures |SplitFrom(s, sep, piece)| == multiset(s)[sep] + 1
    decreases |s|
  {
    if s != [] {
      SplitCount(s[1..], sep, if s[0] == sep then "" else piece + [s[0]]);
      assert s == [s[0]] + s[1..];
      assert multiset(s) == multiset{s[0]} + multiset(s[1..]);
    }
  }

  /** `ws.filter(Boolean)`: drops the empty strings, keeping the order of the rest. */
  function NonEmpty(ws: seq<string>): (r: seq<string>)
    ensures forall w | w in r :: w != "" && w in ws
    ensures forall w | w in ws && w != "" :: w in r
    ensures |r| <= |ws|
  {
    if ws == [] then []
    else if ws[0] == "" then NonEmpty(ws[1..])
    else [ws[0]] + NonEmpty(ws[1..])
  }

  lemma {:induction false} NonEmptyAppend(u: seq<string>, v: seq<string>)
    ensures NonEmpty(u + v) == NonEmpty(u) + NonEmpty(v)
    decreases |u|
  {
    if u == [] {
      assert u + v == v;
    } else {
      NonEmptyAppend(u[1..], v);
      assert (u + v)[1..] == u[1..] + v;
      assert (u + v)[0] == u[0];
    }
  }

  lemma {:induction false} NonEmptyKeeps(ws: seq<string>)
    requires forall w | w in ws :: w != ""
    ensures NonEmpty(ws) == ws
    decreases |ws|
  {
    if ws != [] {
      assert ws[0] in ws;
      assert forall w | w in ws[1..] :: w in ws;
      NonEmptyKeeps(ws[1..]);
    }
  }

  /** `pathname.split("/").filter(Boolean)`: the non-empty "/"-segments of a path. */
  function Segments(pathname: string): (r: seq<string>)
    ensures forall w | w in r :: w != "" && '/' !in w
  {
    SplitPieces(pathname, '/', "");
    NonEmpty(Split(pathname, '/'))
  }

  /** A path in normal form: "/" before every segment. */
  function PathOf(segs: seq<string>): (p: string)
    ensures |p| >= |segs|
    ensures segs != [] <==> p != ""
    ensures segs != [] ==> p[0] == '/'
  {
    if segs == [] then "" else "/" + segs[0] + PathOf(segs[1..])
  }

  ghost predicate IsSegment(w: string) {
    w != "" && '/' !in w
  }

  lemma {:induction false} PathOfAppend(u: seq<string>, v: seq<string>)
    ensures PathOf(u + v) == PathOf(u) + PathOf(v)
    decreases |u|
  {
    if u == [] {
      assert u + v == v;
    } else {
      var h, t, w := "/" + u[0], PathOf(u[1..]), PathOf(v);
      assert (u + v)[0] == u[0] && (u + v)[1..] == u[1..] + v;
      calc {
        PathOf(u + v);
        h + PathOf(u[1..] + v);
        { PathOfAppend(u[1..], v); }
        h + (t + w);
        (h + t) + w;
      }
    }
  }

  lemma {:induction false} SplitPath(segs: seq<string>)
    requires forall w | w in segs :: '/' !in w
    ensures Split(PathOf(segs), '/') == [""] + segs
    decreases |segs|
  {
    if segs != [] {
      var a, r := segs[0], segs[1..];
      assert a in segs;
      assert forall w | w in r :: w in segs;
      SplitPath(r);
      var p, q := PathOf(segs), PathOf(r);
      assert p == "" + ['/'] + (a + q);
      SplitAround("", a + q, '/', "");
      SplitPrefix(a, q, '/', "");
      assert "" + a == a;
      assert Split(p, '/') == [""] + SplitFrom(q, '/', a);
      if r == [] {
        assert q == "";
        assert [a] + r == [a];
      } else {
        assert q == "" + ['/'] + q[1..];
        SplitAround("", q[1..], '/', "");
        SplitAround("", q[1..], '/', a);
        assert Split(q, '/') == [""] + Split(q[1..], '/');
        assert Split(q[1..], '/') == ([""] + Split(q[1..], '/'))[1..] == ([""] + r)[1..] == r;
        assert SplitFrom(q, '/', a) == [a] + Split(q[1..], '/');
      }
      assert SplitFrom(q, '/', a) == [a] + r;
      assert segs == [a] + r;
    }
  }

  /** Segments is a left inverse of PathOf: a normal-form path is read back segment by segment. */
  lemma SegmentsOfPath(segs: seq<string>)
    requires forall w | w in segs :: IsSegment(w)
    ensures Segments(PathOf(segs)) == segs
  {
    SplitPath(segs);
    NonEmptyAppend([""], segs);
    NonEmptyKeeps(segs);
  }

  /** A "/" splits the segments of a path into those before it and those after it. */
  lemma SegmentsAround(x: string, t: string)
    ensures Segments(x + "/" + t) == Segments(x) + Segments(t)
  {
    SplitAround(x, t, '/', "");
    NonEmptyAppend(Split(x, '/'), Split(t, '/'));
  }
}
