/**
 Domain names as lists of labels and as text, and what the byte-level suffix tests mean.

 The code compares presentation text; the promise is about labels. Each test is written here as
 the code writes it and proved equal to label-list suffix on well-formed names.
 */
module Names {
  import opened Seqs
  import opened Sorting

  /** Labels, leftmost first; the root name is the empty list. */
  type Labels = seq<string>

  predicate WellFormed(n: Labels) {
    forall l :: l in n ==> l != "" && '.' !in l
  }

  predicate DotFree(n: Labels) {
    forall l :: l in n ==> '.' !in l
  }

  /** Every label followed by a dot. */
  function Joined(n: Labels): string {
    if n == [] then "" else n[0] + ("." + Joined(n[1..]))
  }

  /** Fully qualified text: what the wire library renders. */
  function Absolute(n: Labels): string {
    if n == [] then "." else Joined(n)
  }

  /** Text without the final dot; the root is empty. */
  function Dotted(n: Labels): string {
    if n == [] then "" else Joined(n)[..|Joined(n)| - 1]
  }

  predicate LabelSuffix(n: Labels, s: Labels) {
    |s| <= |n| && n[|n| - |s|..] == s
  }

  // ----- text operations

  function LowerChar(c: char): char {
    if 'A' <= c <= 'Z' then c - 'A' + 'a' else c
  }

  function Lower(t: string): (r: string)
    ensures |r| == |t| && forall i :: 0 <= i < |t| ==> r[i] == LowerChar(t[i])
  {
    seq(|t|, i requires 0 <= i < |t| => LowerChar(t[i]))
  }

  function LowerAll(n: Labels): (r: Labels)
    ensures |r| == |n| && forall i :: 0 <= i < |n| ==> r[i] == Lower(n[i])
  {
    seq(|n|, i requires 0 <= i < |n| => Lower(n[i]))
  }

  predicate EndsWith(t: string, s: string) {
    |s| <= |t| && t[|t| - |s|..] == s
  }

  /** `trim_end_matches('.')` */
  function TrimEnd(t: string): string {
    if t != "" && t[|t| - 1] == '.' then TrimEnd(t[..|t| - 1]) else t
  }

  /** `trim_start_matches('.')` */
  function TrimStart(t: string): string {
    if t != "" && t[0] == '.' then TrimStart(t[1..]) else t
  }

  /** `normalize_name`: lower case with a final dot. */
  function Normalize(t: string): string {
    if EndsWith(Lower(t), ".") then Lower(t) else Lower(t) + "."
  }

  // ----- the byte-level tests, as written

  /** `name_in_suffix` (the cache). */
  predicate NameInSuffix(name: string, suffix: string) {
    name == suffix || suffix == "."
    || (EndsWith(name, suffix) && |name| > |suffix| && name[|name| - |suffix| - 1] == '.')
  }

  /** `suffix_matches` (special-use names). */
  predicate SuffixMatches(name: string, suffix: string) {
    name == suffix
    || (|name| - |suffix| >= 2 && EndsWith(name, suffix) && name[|name| - |suffix| - 1] == '.')
  }

  /** The test of `group_for` and of zone lookup, on text without final dots. */
  predicate DottedMatches(name: string, suffix: string) {
    name == suffix || EndsWith(name, "." + suffix)
  }

  /** The common core: equal, or longer with a dot before the suffix. */
  predicate AtBoundary(t: string, s: string) {
    t == s || (|t| > |s| && EndsWith(t, s) && t[|t| - |s| - 1] == '.')
  }

  // ----- joined text

  lemma {:induction false} JoinedConcat(a: Labels, b: Labels)
    ensures Joined(a + b) == Joined(a) + Joined(b)
  {
    if a == [] {
      assert a + b == b;
    } else {
      assert (a + b)[0] == a[0] && (a + b)[1..] == a[1..] + b;
      JoinedConcat(a[1..], b);
      var x, y := Joined(a[1..]), Joined(b);
      assert a[0] + ("." + (x + y)) == (a[0] + ("." + x)) + y;
    }
  }

  lemma {:induction false} JoinedEnds(n: Labels)
    requires n != []
    ensures Joined(n) != "" && Joined(n)[|Joined(n)| - 1] == '.'
  {
    if n[1..] != [] {
      JoinedEnds(n[1..]);
    }
  }

  lemma DottedJoined(n: Labels)
    requires n != []
    ensures Dotted(n) + "." == Joined(n)
  {
    JoinedEnds(n);
  }

  /** The last label is where the text before the final dot ends. */
  lemma DottedLast(n: Labels)
    requires n != []
    ensures Dotted(n) == Joined(n[..|n| - 1]) + n[|n| - 1]
  {
    var init, last := n[..|n| - 1], n[|n| - 1];
    assert n == init + [last];
    JoinedConcat(init, [last]);
    assert Joined([last]) == last + ".";
    assert Joined(n) == (Joined(init) + last) + ".";
  }

  /** Text that starts at a label boundary of well-formed text starts at or after the first dot. */
  lemma BoundaryInTail(l: string, rest: string, s: string)
    requires '.' !in l && s != ""
    requires var t := l + ("." + rest); |t| > |s| && EndsWith(t, s) && t[|t| - |s| - 1] == '.'
    ensures AtBoundary(rest, s)
  {
    var t := l + ("." + rest);
    var k := |t| - |s|;
    assert forall i :: 0 <= i < |l| ==> t[i] == l[i];
    assert k >= |l| + 1;
    assert rest == t[|l| + 1..];
    assert t[k..] == rest[k - |l| - 1..];
  }

  /** Equal text splits equally at its first dot. */
  lemma FirstDot(l: string, x: string, m: string, y: string)
    requires '.' !in l && '.' !in m && l + ("." + x) == m + ("." + y)
    ensures l == m && x == y
  {
    var t, u := l + ("." + x), m + ("." + y);
    SplitFirstDot(l, x, t);
    SplitFirstDot(m, y, u);
    assert |l| == |m|;
  }

  lemma SplitFirstDot(l: string, x: string, t: string)
    requires '.' !in l && t == l + ("." + x)
    ensures |l| < |t| && t[|l|] == '.' && forall i :: 0 <= i < |l| ==> t[i] != '.'
    ensures l == t[..|l|] && x == t[|l| + 1..]
  {
    assert forall i :: 0 <= i < |l| ==> t[i] == l[i];
  }

  lemma DotFreeTail(n: Labels)
    requires DotFree(n) && n != []
    ensures DotFree(n[1..]) && '.' !in n[0]
  {
    assert n[0] in n;
    assert forall l :: l in n[1..] ==> l in n;
  }

  lemma {:induction false} JoinedInjective(n: Labels, s: Labels)
    requires DotFree(n) && DotFree(s) && Joined(n) == Joined(s)
    ensures n == s
  {
    if n != [] && s != [] {
      DotFreeTail(n);
      DotFreeTail(s);
      FirstDot(n[0], Joined(n[1..]), s[0], Joined(s[1..]));
      JoinedInjective(n[1..], s[1..]);
      assert n == [n[0]] + n[1..] && s == [s[0]] + s[1..];
    }
  }

  // ----- meaning of the core test

  lemma SuffixIsBoundary(n: Labels, s: Labels)
    requires LabelSuffix(n, s)
    ensures AtBoundary(Joined(n), Joined(s))
  {
    var p := n[..|n| - |s|];
    assert n == p + s;
    JoinedConcat(p, s);
    if p != [] {
      JoinedEnds(p);
    }
  }

  lemma {:induction false} BoundaryIsSuffix(n: Labels, s: Labels)
    requires DotFree(n) && DotFree(s) && s != [] && AtBoundary(Joined(n), Joined(s))
    ensures LabelSuffix(n, s)
  {
    JoinedEnds(s);
    if Joined(n) == Joined(s) {
      JoinedInjective(n, s);
    } else {
      assert n != [];
      DotFreeTail(n);
      BoundaryInTail(n[0], Joined(n[1..]), Joined(s));
      BoundaryIsSuffix(n[1..], s);
      assert n[|n| - |s|..] == n[1..][|n| - 1 - |s|..];
    }
  }

  lemma BoundaryMeaning(n: Labels, s: Labels)
    requires DotFree(n) && DotFree(s) && s != []
    ensures AtBoundary(Joined(n), Joined(s)) <==> LabelSuffix(n, s)
  {
    if LabelSuffix(n, s) {
      SuffixIsBoundary(n, s);
    }
    if AtBoundary(Joined(n), Joined(s)) {
      BoundaryIsSuffix(n, s);
    }
  }

  lemma WellFormedDotFree(n: Labels)
    requires WellFormed(n)
    ensures DotFree(n)
  {
  }

  // ----- meaning of each test, root suffix included

  /** Cache flushes: label suffix for every suffix; the root covers every name. */
  lemma NameInSuffixMeaning(n: Labels, s: Labels)
    requires WellFormed(n) && WellFormed(s)
    ensures NameInSuffix(Absolute(n), Absolute(s)) <==> LabelSuffix(n, s)
  {
    if s != [] {
      WellFormedDotFree(n);
      WellFormedDotFree(s);
      BoundaryMeaning(n, s);
      NotJustADot(s);
      if n == [] {
        JoinedLong(s);
      }
    }
  }

  lemma JoinedLong(s: Labels)
    requires WellFormed(s) && s != []
    ensures |Joined(s)| >= 2 && Joined(s)[0] != '.'
  {
    assert s[0] in s;
  }

  lemma NotJustADot(s: Labels)
    requires WellFormed(s) && s != []
    ensures Joined(s) != "." && Joined(s) != ""
  {
    JoinedLong(s);
  }

  /** Special-use names: label suffix for every suffix but the root, which covers only itself. */
  lemma SuffixMatchesMeaning(n: Labels, s: Labels)
    requires WellFormed(n) && WellFormed(s)
    ensures SuffixMatches(Absolute(n), Absolute(s)) <==> if s == [] then n == [] else LabelSuffix(n, s)
  {
    if s == [] {
      if n != [] {
        NotJustADot(n);
        NoDoubleDot(n);
      }
    } else {
      WellFormedDotFree(n);
      WellFormedDotFree(s);
      BoundaryMeaning(n, s);
      JoinedLong(s);
      if n != [] {
        JoinedLong(n);
      }
    }
  }

  /** Well-formed text has no empty label before its final dot. */
  lemma NoDoubleDot(n: Labels)
    requires WellFormed(n) && n != []
    ensures |Joined(n)| >= 2 && Joined(n)[|Joined(n)| - 2] != '.'
  {
    var last := n[|n| - 1];
    assert last in n;
    DottedJoined(n);
    DottedLast(n);
    var d := Dotted(n);
    assert d[|d| - 1] == last[|last| - 1];
    assert Joined(n)[|d| - 1] == d[|d| - 1];
  }

  lemma DottedIsBoundary(x: string, y: string)
    ensures DottedMatches(x, y) <==> AtBoundary(x + ".", y + ".")
  {
    var t, s := x + ".", y + ".";
    assert x == t[..|x|] && y == s[..|y|];
    if |x| > |y| {
      var k := |x| - |y|;
      assert t[k..] == x[k..] + ".";
      assert ("." + y)[1..] == y && x[k - 1..][1..] == x[k..];
      assert x[k - 1..] == [x[k - 1]] + x[k..];
      assert EndsWith(t, s) <==> x[k..] == y by {
        assert x[k..] == t[k..][..|y|];
      }
    }
  }

  lemma RelativeText(r: Labels)
    requires WellFormed(r) && r != []
    ensures Dotted(r) != "" && !EndsWith(Dotted(r), ".")
  {
    hide Joined, Dotted;
    DottedJoined(r);
    NoDoubleDot(r);
  }

  lemma DottedBoth(n: Labels, s: Labels)
    requires WellFormed(n) && WellFormed(s) && n != [] && s != []
    ensures DottedMatches(Dotted(n), Dotted(s)) <==> LabelSuffix(n, s)
  {
    hide Joined, Dotted, DottedMatches, AtBoundary, LabelSuffix, WellFormed, DotFree;
    DottedJoined(n);
    DottedJoined(s);
    DottedIsBoundary(Dotted(n), Dotted(s));
    WellFormedDotFree(n);
    WellFormedDotFree(s);
    BoundaryMeaning(n, s);
  }

  lemma DottedRoot(d: string)
    ensures DottedMatches(d, "") <==> d == "" || EndsWith(d, ".")
    ensures DottedMatches("", d) <==> d == ""
  {
    assert "." + "" == ".";
  }

  /** Rules and zones: label suffix for every suffix but the root, which covers only itself. */
  lemma DottedMatchesMeaning(n: Labels, s: Labels)
    requires WellFormed(n) && WellFormed(s)
    ensures DottedMatches(Dotted(n), Dotted(s)) <==> if s == [] then n == [] else LabelSuffix(n, s)
  {
    hide Joined, DottedMatches, EndsWith, WellFormed;
    if n != [] {
      RelativeText(n);
    }
    if s != [] {
      RelativeText(s);
      if n != [] {
        DottedBoth(n, s);
      }
    }
    DottedRoot(Dotted(n));
    DottedRoot(Dotted(s));
  }

  // ----- case and trimming

  lemma LowerConcat(a: string, b: string)
    ensures Lower(a + b) == Lower(a) + Lower(b)
  {
  }

  lemma {:induction false} LowerJoined(n: Labels)
    ensures Lower(Joined(n)) == Joined(LowerAll(n))
  {
    if n != [] {
      LowerConcat(n[0], "." + Joined(n[1..]));
      LowerConcat(".", Joined(n[1..]));
      LowerJoined(n[1..]);
      assert LowerAll(n)[1..] == LowerAll(n[1..]);
      assert Lower(".") == ".";
    }
  }

  /** The same character, or the two cases of one ASCII letter. */
  predicate FoldChar(a: char, b: char) {
    a == b || ('A' <= a <= 'Z' && b == a - 'A' + 'a') || ('A' <= b <= 'Z' && a == b - 'A' + 'a')
  }

  predicate Folds(s: string, t: string) {
    |s| == |t| && forall i :: 0 <= i < |s| ==> FoldChar(s[i], t[i])
  }

  lemma LowerCharMeaning(a: char, b: char)
    ensures LowerChar(a) == LowerChar(b) <==> FoldChar(a, b)
  {
  }

  /** Lower-casing identifies exactly the texts that differ in the case of ASCII letters. */
  lemma LowerMeaning(s: string, t: string)
    ensures Lower(s) == Lower(t) <==> Folds(s, t)
  {
    hide LowerChar, FoldChar;
    forall i | 0 <= i < |s| && i < |t|
      ensures LowerChar(s[i]) == LowerChar(t[i]) <==> FoldChar(s[i], t[i])
    {
      LowerCharMeaning(s[i], t[i]);
    }
    if Lower(s) == Lower(t) {
      assert |s| == |t|;
      assert forall i :: 0 <= i < |s| ==> Lower(s)[i] == Lower(t)[i];
    }
    if Folds(s, t) {
      assert Lower(s) == Lower(t);
    }
  }

  lemma LowerWellFormed(n: Labels)
    requires WellFormed(n)
    ensures WellFormed(LowerAll(n))
  {
    forall i | 0 <= i < |n|
      ensures LowerAll(n)[i] != "" && '.' !in LowerAll(n)[i]
    {
      assert n[i] in n;
    }
  }

  lemma LowerTwice(n: Labels)
    ensures LowerAll(LowerAll(n)) == LowerAll(n)
  {
    forall i | 0 <= i < |n|
      ensures Lower(Lower(n[i])) == Lower(n[i])
    {
    }
  }

  lemma LowerAbsolute(n: Labels)
    ensures Lower(Absolute(n)) == Absolute(LowerAll(n))
  {
    LowerJoined(n);
  }

  lemma LowerDotted(n: Labels)
    ensures Lower(Dotted(n)) == Dotted(LowerAll(n))
  {
    LowerJoined(n);
    if n != [] {
      JoinedEnds(n);
      var t := Joined(n);
      assert Lower(t[..|t| - 1]) == Lower(t)[..|t| - 1];
    }
  }

  lemma TrimEndIdle(t: string)
    requires t == "" || t[|t| - 1] != '.'
    ensures TrimEnd(t) == t && TrimEnd(t + ".") == t
  {
    assert (t + ".")[..|t|] == t;
  }

  /** Both spellings of a name trim to the same text. */
  lemma TrimName(n: Labels)
    requires WellFormed(n)
    ensures TrimEnd(Absolute(n)) == Dotted(n) && TrimEnd(Dotted(n)) == Dotted(n)
  {
    if n == [] {
      TrimEndIdle("");
      assert "" + "." == ".";
    } else {
      DottedJoined(n);
      NoDoubleDot(n);
      TrimEndIdle(Dotted(n));
    }
  }

  /** Both spellings of a name, in any case, normalise to its lower-case absolute text. */
  lemma NormalizeName(n: Labels)
    requires WellFormed(n)
    ensures Normalize(Absolute(n)) == Absolute(LowerAll(n))
    ensures n != [] ==> Normalize(Dotted(n)) == Absolute(LowerAll(n))
  {
    LowerAbsolute(n);
    LowerDotted(n);
    if n != [] {
      JoinedEnds(LowerAll(n));
      LowerWellFormed(n);
      NoDoubleDot(LowerAll(n));
      DottedJoined(LowerAll(n));
    }
  }

  // ----- first match on a table sorted by length

  /** `i` is the first of the longest hits. */
  ghost predicate MostSpecific<T>(items: seq<T>, text: T -> string, hit: T -> bool, i: nat) {
    && i < |items| && hit(items[i])
    && forall j :: 0 <= j < |items| && hit(items[j]) ==>
         |text(items[j])| <= |text(items[i])| && (|text(items[j])| == |text(items[i])| ==> i <= j)
  }

  ghost predicate LongestFirst<T(!new)>(text: T -> string, leq: (T, T) -> bool) {
    && TotalPreorder(leq)
    && (forall x, y :: leq(x, y) ==> |text(x)| >= |text(y)|)
    && (forall x, y :: text(x) == text(y) ==> leq(x, y))
  }

  /** Hits of one length have one text, and whether an item hits depends on its text alone. */
  ghost predicate ByText<T(!new)>(text: T -> string, hit: T -> bool) {
    && (forall x, y :: hit(x) && hit(y) && |text(x)| == |text(y)| ==> text(x) == text(y))
    && (forall x, y :: text(x) == text(y) ==> hit(x) == hit(y))
  }

  lemma SortedFirstOfText<T(!new)>(items: seq<T>, text: T -> string, leq: (T, T) -> bool, hit: T -> bool, x: T)
    requires LongestFirst(text, leq) && ByText(text, hit)
    requires First(hit, Sort(items, leq)) == Some(x)
    ensures First((y: T) => text(y) == text(x), items) == Some(x)
  {
    var same := (y: T) => text(y) == text(x);
    var sorted := Sort(items, leq);
    var k := FirstIndex(hit, sorted);
    var m := FirstIndex(same, sorted);
    assert same(sorted[k]);
    assert m <= k && hit(sorted[m]);
    SortStable(items, leq, same);
    FirstIsHead(same, sorted);
    FirstIsHead(same, items);
  }

  /**
   On a table sorted longest first by a stable sort, the first hit is the first configured among
   the longest hits; and there is a first hit exactly when there is a hit.
   */
  lemma FirstIsMostSpecific<T(!new)>(items: seq<T>, text: T -> string, leq: (T, T) -> bool, hit: T -> bool)
    returns (i: nat)
    requires LongestFirst(text, leq) && ByText(text, hit)
    ensures First(hit, Sort(items, leq)).None? ==> forall j :: 0 <= j < |items| ==> !hit(items[j])
    ensures First(hit, Sort(items, leq)).Some? ==>
              MostSpecific(items, text, hit, i) && First(hit, Sort(items, leq)) == Some(items[i])
  {
    var sorted := Sort(items, leq);
    SortPermutes(items, leq);
    SortSorts(items, leq);
    var k := FirstIndex(hit, sorted);
    if k == |sorted| {
      i := 0;
      forall j | 0 <= j < |items|
        ensures !hit(items[j])
      {
        assert items[j] in items;
      }
    } else {
      var x := sorted[k];
      SortedFirstOfText(items, text, leq, hit, x);
      var same := (y: T) => text(y) == text(x);
      i := FirstIndex(same, items);
      forall j | 0 <= j < |items| && hit(items[j])
        ensures |text(items[j])| <= |text(x)| && (|text(items[j])| == |text(x)| ==> i <= j)
      {
        assert items[j] in items;
        var m :| 0 <= m < |sorted| && sorted[m] == items[j];
        assert k <= m;
        assert |text(items[j])| == |text(x)| ==> same(items[j]);
      }
    }
  }

  // ----- the most specific entry, in labels

  /** Two suffixes of one length that both cover a name are the same text. */
  lemma SameLengthSameSuffix(name: string, s: string, t: string)
    requires DottedMatches(name, s) && DottedMatches(name, t) && |s| == |t|
    ensures s == t
  {
    if name != s {
      assert ("." + s)[1..] == s && ("." + t)[1..] == t;
    }
  }

  /** A suffix covers a name, in any case: label suffix, except that the root covers itself alone. */
  predicate Covers(s: Labels, n: Labels) {
    if s == [] then n == [] else LabelSuffix(LowerAll(n), LowerAll(s))
  }

  /** Entry `i` is the one that decides `n`: most labels, then first configured. */
  ghost predicate Decides(suffixes: seq<Labels>, n: Labels, i: nat) {
    && i < |suffixes| && Covers(suffixes[i], n)
    && forall j :: 0 <= j < |suffixes| && Covers(suffixes[j], n) ==>
         |suffixes[j]| <= |suffixes[i]| && (|suffixes[j]| == |suffixes[i]| ==> i <= j)
  }

  /** Among suffixes of one name, more labels means longer text. */
  lemma LengthFollowsLabels(n: Labels, s: Labels, t: Labels)
    requires LabelSuffix(n, s) && LabelSuffix(n, t)
    ensures |s| < |t| ==> |Joined(s)| < |Joined(t)|
    ensures |s| == |t| ==> s == t
  {
    if |s| < |t| {
      var p := n[|n| - |t|..|n| - |s|];
      assert t == p + s;
      JoinedConcat(p, s);
      JoinedEnds(p);
    }
  }

  lemma CoverLength(n: Labels, s: Labels, t: Labels)
    requires Covers(s, n) && Covers(t, n)
    ensures var a, b := |Dotted(LowerAll(s))|, |Dotted(LowerAll(t))|;
            (|s| < |t| ==> a < b) && (|s| == |t| ==> a == b)
  {
    if s != [] && t != [] {
      LengthFollowsLabels(LowerAll(n), LowerAll(s), LowerAll(t));
      JoinedEnds(LowerAll(s));
      JoinedEnds(LowerAll(t));
    }
  }

  lemma MostSpecificDecides<T>(items: seq<T>, text: T -> string, hit: T -> bool, suffixes: seq<Labels>, n: Labels, i: nat)
    requires |items| == |suffixes| && MostSpecific(items, text, hit, i)
    requires forall j :: 0 <= j < |items| ==> (hit(items[j]) <==> Covers(suffixes[j], n))
    requires forall j :: 0 <= j < |items| ==> text(items[j]) == Dotted(LowerAll(suffixes[j]))
    ensures Decides(suffixes, n, i)
  {
    hide Covers, Dotted, LowerAll;
    forall j | 0 <= j < |suffixes| && Covers(suffixes[j], n)
      ensures |suffixes[j]| <= |suffixes[i]| && (|suffixes[j]| == |suffixes[i]| ==> i <= j)
    {
      CoverLength(n, suffixes[i], suffixes[j]);
      assert hit(items[j]);
    }
  }

  /** Covering compares the last labels one by one, letter case aside; the root covers itself alone. */
  lemma CoversMeaning(s: Labels, n: Labels)
    ensures Covers(s, n) <==>
            if s == [] then n == [] else |s| <= |n| && forall i :: 0 <= i < |s| ==> Folds(s[i], n[|n| - |s| + i])
  {
    hide Lower, Folds;
    if s != [] && |s| <= |n| {
      var k := |n| - |s|;
      var tail := LowerAll(n)[k..];
      forall i | 0 <= i < |s|
        ensures tail[i] == LowerAll(s)[i] <==> Folds(s[i], n[k + i])
      {
        LowerMeaning(s[i], n[k + i]);
      }
      if tail == LowerAll(s) {
        assert forall i :: 0 <= i < |s| ==> tail[i] == LowerAll(s)[i];
      }
    }
  }
}
