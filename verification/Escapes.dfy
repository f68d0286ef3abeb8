/**
 Names whose labels hold arbitrary bytes, in the escaped text the wire library renders, and what
 the byte-level suffix tests make of an escaped dot.
 */
module Escapes {
  import opened Names

  // ----- escaped text

  /** Letters, digits, hyphen and underscore. */
  predicate Ordinary(c: char) {
    'a' <= c <= 'z' || 'A' <= c <= 'Z' || '0' <= c <= '9' || c == '-' || c == '_'
  }

  /** Written as it is: no hyphen in front, and an asterisk only there. */
  predicate Plain(c: char, first: bool) {
    (Ordinary(c) && !(first && c == '-')) || (first && c == '*')
  }

  const DIGITS := "01234567"

  function Octal(n: nat): string {
    [DIGITS[n / 64 % 8], DIGITS[n / 8 % 8], DIGITS[n % 8]]
  }

  function EscapeChar(c: char, first: bool): string {
    if Plain(c, first) then [c]
    else if '!' <= c <= '~' then ['\\', c]
    else "\\" + Octal(c as int)
  }

  function Escape(l: string, first: bool): string {
    if l == "" then "" else EscapeChar(l[0], first) + Escape(l[1..], false)
  }

  /** Every label escaped and followed by a dot. */
  function EscapedJoined(n: Labels): string {
    if n == [] then "" else Escape(n[0], true) + ("." + EscapedJoined(n[1..]))
  }

  function EscapedText(n: Labels): string {
    if n == [] then "." else EscapedJoined(n)
  }

  // ----- the text between dots

  /** What stands between the dots of an escaped label; all pieces but the last end in a backslash. */
  function Pieces(l: string, first: bool): (r: Labels)
    ensures r != []
  {
    if l == "" then [""]
    else if l[0] == '.' then ["\\"] + Pieces(l[1..], false)
    else
      var r := Pieces(l[1..], false);
      [EscapeChar(l[0], first) + r[0]] + r[1..]
  }

  function AllPieces(n: Labels): Labels {
    if n == [] then [] else AllPieces(n[..|n| - 1]) + Pieces(n[|n| - 1], true)
  }

  lemma EscapedDot(first: bool)
    ensures EscapeChar('.', first) == "\\."
  {
  }

  lemma EscapeCharFacts(c: char, first: bool)
    ensures EscapeChar(c, first) != "" && EscapeChar(c, first)[0] != '.'
    ensures c != '.' ==> '.' !in EscapeChar(c, first)
    ensures !Plain(c, first) ==> EscapeChar(c, first)[0] == '\\'
  {
    assert '.' !in DIGITS;
  }

  /** Dots in the text of a label are exactly where its pieces meet. */
  lemma {:induction false} PiecesText(l: string, first: bool)
    ensures Joined(Pieces(l, first)) == Escape(l, first) + "."
  {
    hide EscapeChar;
    if l == "" {
      assert Joined([""]) == "" + ("." + Joined([]));
    } else {
      var r, e := Pieces(l[1..], false), EscapeChar(l[0], first);
      PiecesText(l[1..], false);
      if l[0] == '.' {
        EscapedDot(first);
        assert (["\\"] + r)[1..] == r;
        assert "\\" + ("." + Joined(r)) == "\\." + Joined(r);
        assert "\\." + (Escape(l[1..], false) + ".") == ("\\." + Escape(l[1..], false)) + ".";
      } else {
        var p := [e + r[0]] + r[1..];
        assert p[1..] == r[1..];
        assert (e + r[0]) + ("." + Joined(r[1..])) == e + (r[0] + ("." + Joined(r[1..])));
        assert e + (Escape(l[1..], false) + ".") == (e + Escape(l[1..], false)) + ".";
      }
    }
  }

  lemma {:induction false} PiecesDotFree(l: string, first: bool)
    ensures DotFree(Pieces(l, first))
  {
    if l != "" {
      var r := Pieces(l[1..], false);
      PiecesDotFree(l[1..], false);
      EscapeCharFacts(l[0], first);
      hide EscapeChar;
      assert r[0] in r;
      assert forall x :: x in r[1..] ==> x in r;
    }
  }

  lemma {:induction false} EscapedConcat(a: Labels, b: Labels)
    ensures EscapedJoined(a + b) == EscapedJoined(a) + EscapedJoined(b)
  {
    hide Escape;
    if a == [] {
      assert a + b == b;
    } else {
      assert (a + b)[0] == a[0] && (a + b)[1..] == a[1..] + b;
      EscapedConcat(a[1..], b);
      var x, y := EscapedJoined(a[1..]), EscapedJoined(b);
      assert Escape(a[0], true) + ("." + (x + y)) == (Escape(a[0], true) + ("." + x)) + y;
    }
  }

  /** The escaped text is the joined text of its pieces. */
  lemma {:induction false} TextOfPieces(n: Labels)
    ensures Joined(AllPieces(n)) == EscapedJoined(n) && DotFree(AllPieces(n))
  {
    if n != [] {
      var init, l := n[..|n| - 1], n[|n| - 1];
      TextOfPieces(init);
      JoinedConcat(AllPieces(init), Pieces(l, true));
      PiecesText(l, true);
      PiecesDotFree(l, true);
      assert n == init + [l];
      EscapedConcat(init, [l]);
      assert [l][1..] == [];
      assert EscapedJoined([l]) == Escape(l, true) + ("." + "");
    }
  }

  // ----- plain suffixes

  predicate AllOrdinary(t: string) {
    forall i :: 0 <= i < |t| ==> Ordinary(t[i])
  }

  /** Suffix labels as the tables and operators write them. */
  predicate PlainSuffix(s: Labels) {
    s != [] && forall t :: t in s ==> t != "" && AllOrdinary(t) && t[0] != '-'
  }

  /** An ordinary label is its own single piece, and nothing else has that piece alone. */
  lemma {:induction false} SinglePiece(l: string, first: bool, t: string)
    requires AllOrdinary(t) && (first && t != "" ==> t[0] != '-')
    ensures |Pieces(l, first)| == 1 && Pieces(l, first)[0] == t <==> l == t
  {
    if l != "" {
      EscapeCharFacts(l[0], first);
      var r, e := Pieces(l[1..], false), EscapeChar(l[0], first);
      assert l == [l[0]] + l[1..];
      if t != "" {
        assert t == [t[0]] + t[1..];
        SinglePiece(l[1..], false, t[1..]);
      }
      if l[0] != '.' {
        assert Plain(l[0], first) ==> e == [l[0]] && (e + r[0])[1..] == r[0];
        assert (e + r[0])[0] == e[0];
      }
    }
  }

  /** An ordinary last piece after others is what follows a dot inside the label. */
  lemma {:induction false} LastPiece(l: string, first: bool, t: string)
    requires AllOrdinary(t)
    ensures var p := Pieces(l, first); |p| > 1 && p[|p| - 1] == t <==> EndsWith(l, "." + t)
  {
    if l != "" {
      var r := Pieces(l[1..], false);
      LastPiece(l[1..], false, t);
      SinglePiece(l[1..], false, t);
      EndsWithCons(l, t);
      PiecesOfCons(l, first);
      hide Pieces, EndsWith, AllOrdinary;
    }
  }

  /** The last piece of a label is that of its tail, unless the label has one piece. */
  lemma PiecesOfCons(l: string, first: bool)
    requires l != ""
    ensures var p, r := Pieces(l, first), Pieces(l[1..], false);
            && |p| == |r| + (if l[0] == '.' then 1 else 0)
            && (|p| > 1 ==> p[|p| - 1] == r[|r| - 1])
  {
    hide EscapeChar;
  }

  lemma EndsWithCons(l: string, t: string)
    requires l != ""
    ensures EndsWith(l, "." + t) <==> (l[0] == '.' && l[1..] == t) || EndsWith(l[1..], "." + t)
  {
    var e := "." + t;
    if |l| > |e| {
      assert l[|l| - |e|..] == l[1..][|l| - 1 - |e|..];
    } else if |l| == |e| {
      assert l[0..] == l && e[1..] == t && l == [l[0]] + l[1..];
    }
  }

  lemma {:induction false} InnerPieces(l: string, first: bool, i: nat)
    requires i + 1 < |Pieces(l, first)|
    ensures Pieces(l, first)[i] != "" && Pieces(l, first)[i][|Pieces(l, first)[i]| - 1] == '\\'
  {
    hide EscapeChar;
    var r := Pieces(l[1..], false);
    if l[0] == '.' {
      if i > 0 {
        InnerPieces(l[1..], false, i - 1);
      }
    } else {
      InnerPieces(l[1..], false, i);
    }
  }

  // ----- what the tests accept

  /** The labels after the first of `s` agree, and the one in its place is it or ends in a dot and it. */
  predicate EscapedSuffix(n: Labels, s: Labels) {
    && 1 <= |s| <= |n| && n[|n| - |s| + 1..] == s[1..]
    && (n[|n| - |s|] == s[0] || EndsWith(n[|n| - |s|], "." + s[0]))
  }

  lemma LabelSuffixSnoc(p: Labels, q: Labels, s: Labels)
    requires s != [] && |q| == 1
    ensures LabelSuffix(p + q, s) <==> q[0] == s[|s| - 1] && LabelSuffix(p, s[..|s| - 1])
  {
    var w, init := p + q, s[..|s| - 1];
    assert s == init + [s[|s| - 1]];
    if |s| <= |w| {
      assert w[|w| - |s|..] == p[|p| - |init|..] + q;
      assert (p[|p| - |init|..] + q)[..|init|] == p[|p| - |init|..];
    }
  }

  lemma EscapedSuffixSnoc(n: Labels, s: Labels)
    requires n != [] && |s| >= 2
    ensures EscapedSuffix(n, s) <==> n[|n| - 1] == s[|s| - 1] && EscapedSuffix(n[..|n| - 1], s[..|s| - 1])
  {
    var m, t := n[..|n| - 1], s[..|s| - 1];
    assert n == m + [n[|n| - 1]] && s == t + [s[|s| - 1]];
    if |s| <= |n| {
      var a, b := n[|n| - |s| + 1..], m[|m| - |t| + 1..];
      assert a == b + [n[|n| - 1]] && s[1..] == t[1..] + [s[|s| - 1]];
      assert a[..|b|] == b && s[1..][..|t[1..]|] == t[1..];
      assert m[|m| - |t|] == n[|n| - |s|] && t[0] == s[0];
    }
  }

  /** With several pieces in the last label, only a suffix of one label can match. */
  lemma ManyPieces(p: Labels, q: Labels, l: string, s: Labels)
    requires q == Pieces(l, true) && |q| > 1 && PlainSuffix(s)
    ensures LabelSuffix(p + q, s) <==> |s| == 1 && q[|q| - 1] == s[0]
  {
    var w := p + q;
    InnerPieces(l, true, |q| - 2);
    hide Pieces;
    var inner := q[|q| - 2];
    assert w[|w| - 1] == q[|q| - 1] && w[|w| - 2] == inner;
    assert inner !in s;
    if LabelSuffix(w, s) {
      SuffixAt(w, s, |s| - 1);
      forall j | |w| - |s| <= j < |w|
        ensures w[j] in s
      {
        SuffixAt(w, s, j - (|w| - |s|));
      }
    }
    if |s| == 1 {
      assert w[|w| - 1..] == [w[|w| - 1]] && s == [s[0]];
    }
  }

  lemma SuffixAt(w: Labels, s: Labels, i: nat)
    requires LabelSuffix(w, s) && i < |s|
    ensures w[|w| - |s| + i] == s[i] && s[i] in s
  {
    assert w[|w| - |s|..][i] == s[i];
  }

  lemma {:induction false} PiecesSuffix(n: Labels, s: Labels)
    requires PlainSuffix(s)
    ensures LabelSuffix(AllPieces(n), s) <==> EscapedSuffix(n, s)
    decreases |s|
  {
    if n != [] {
      var init, l := n[..|n| - 1], n[|n| - 1];
      var q, t, rest := Pieces(l, true), s[|s| - 1], s[..|s| - 1];
      assert t in s;
      SinglePiece(l, true, t);
      LastPiece(l, true, t);
      if |q| > 1 {
        ManyPieces(AllPieces(init), q, l, s);
      } else {
        LabelSuffixSnoc(AllPieces(init), q, s);
      }
      hide Pieces;
      if |s| == 1 {
        assert n[|n|..] == [] && s[1..] == [];
        assert AllPieces(init)[|AllPieces(init)|..] == [];
      } else {
        assert forall x :: x in rest ==> x in s;
        PiecesSuffix(init, rest);
        EscapedSuffixSnoc(n, s);
      }
    }
  }

  lemma {:induction false} TextStart(n: Labels)
    requires n != [] && n[0] != ""
    ensures EscapedJoined(n) != "" && EscapedJoined(n)[0] != '.'
  {
    EscapeCharFacts(n[0][0], true);
  }

  lemma PlainSuffixFacts(s: Labels)
    requires PlainSuffix(s)
    ensures s != [] && WellFormed(s) && DotFree(s)
  {
    forall t | t in s
      ensures '.' !in t
    {
    }
  }

  /**
   The special-use and the cache test on escaped text, for any labels: they accept a plain suffix
   exactly when the labels after its first agree and the label in that place is it, or ends in a
   dot and it.
   */
  lemma EscapedTests(n: Labels, s: Labels)
    requires (forall l :: l in n ==> l != "") && PlainSuffix(s)
    ensures SuffixMatches(EscapedText(n), Joined(s)) <==> EscapedSuffix(n, s)
    ensures NameInSuffix(EscapedText(n), Joined(s)) <==> EscapedSuffix(n, s)
  {
    hide Joined, EscapedJoined, EscapedSuffix, LabelSuffix, AllPieces, PlainSuffix, WellFormed, DotFree, AtBoundary,
         SuffixMatches, NameInSuffix;
    PlainSuffixFacts(s);
    JoinedLong(s);
    if n == [] {
      RootFails(Joined(s));
      NothingInRoot(s);
    } else {
      assert n[0] in n;
      TextStart(n);
      TestsAreBoundary(EscapedJoined(n), Joined(s));
      TextOfPieces(n);
      BoundaryMeaning(AllPieces(n), s);
      PiecesSuffix(n, s);
    }
  }

  /** Both tests are the core test on text that starts with a label. */
  lemma TestsAreBoundary(text: string, suffix: string)
    requires text != "" && text[0] != '.' && |suffix| >= 2
    ensures SuffixMatches(text, suffix) <==> AtBoundary(text, suffix)
    ensures NameInSuffix(text, suffix) <==> AtBoundary(text, suffix)
  {
  }

  lemma RootFails(suffix: string)
    requires |suffix| >= 2
    ensures !SuffixMatches(".", suffix) && !NameInSuffix(".", suffix)
  {
  }

  lemma NothingInRoot(s: Labels)
    requires PlainSuffix(s)
    ensures !EscapedSuffix([], s)
  {
  }

  /**
   So the tests mean label suffix for such a name if and only if no label of it ends in an escaped
   dot and the first label of the suffix, with the rest of the suffix after it.
   */
  lemma EscapedExactness(n: Labels, s: Labels)
    requires (forall l :: l in n ==> l != "") && PlainSuffix(s)
    ensures (SuffixMatches(EscapedText(n), Joined(s)) <==> LabelSuffix(n, s)) <==>
            !(|s| <= |n| && n[|n| - |s| + 1..] == s[1..] && EndsWith(n[|n| - |s|], "." + s[0]))
  {
    hide SuffixMatches, NameInSuffix, EscapedText, Joined, LabelSuffix, PlainSuffix, EndsWith;
    EscapedTests(n, s);
    SuffixByHead(n, s);
    if |s| <= |n| {
      NotItsOwnEnd(s[0]);
    }
  }

  lemma SuffixByHead(n: Labels, s: Labels)
    requires PlainSuffix(s)
    ensures s != []
    ensures LabelSuffix(n, s) <==> |s| <= |n| && n[|n| - |s|] == s[0] && n[|n| - |s| + 1..] == s[1..]
  {
    if |s| <= |n| {
      var k := |n| - |s|;
      assert n[k..] == [n[k]] + n[k + 1..] && s == [s[0]] + s[1..];
      assert n[k..][1..] == n[k + 1..] && n[k..][0] == n[k];
    }
  }

  lemma NotItsOwnEnd(t: string)
    ensures !EndsWith(t, "." + t)
  {
  }

  /** Such names exist: one label with a dot in it is taken for a name below `local`. */
  lemma DotTakenForBoundary(u: string)
    ensures var n, s := [u + ".local"], ["local"];
            PlainSuffix(s) && SuffixMatches(EscapedText(n), Joined(s)) && !LabelSuffix(n, s)
  {
    var n, s := [u + ".local"], ["local"];
    assert n[1..] == [] && s[1..] == [];
    assert (u + ".local")[|u|..] == "." + "local";
    assert forall l :: l in n ==> l == u + ".local";
    EscapedTests(n, s);
  }
}
