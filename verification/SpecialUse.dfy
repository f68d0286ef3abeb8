/** Special-use names: which queries are answered locally. */
module SpecialUse {
  import opened Seqs
  import opened Names

  datatype Registry = Localhost | Invalid | MulticastDns | HomeArpa | Onion | PrivateReverse
  datatype Disposition = Loopback | NxDomain | LoopMarker
  datatype Class = Class(registry: Registry, disposition: Disposition)

  /** A table row; its text is the dot-terminated rendering of the labels. */
  datatype Row = Row(suffix: Labels, registry: Registry)

  const V4_REVERSE: Labels := ["in-addr", "arpa"]
  const V6_REVERSE: Labels := ["ip6", "arpa"]

  const NAMED_ROWS: seq<Row> := [
    Row(["invalid"], Invalid), Row(["local"], MulticastDns), Row(["home", "arpa"], HomeArpa), Row(["onion"], Onion)]

  const TEN_ROWS: seq<Row> := [Row(["10"] + V4_REVERSE, PrivateReverse)]

  const DIGITS := "0123456789"

  /** Reverse zones of 172.16.0.0/12, one for each second octet from 16 to 31. */
  function Rows172(): seq<Row> {
    seq(16, i requires 0 <= i < 16 =>
      Row([[DIGITS[(16 + i) / 10], DIGITS[(16 + i) % 10]], "172"] + V4_REVERSE, PrivateReverse))
  }

  const OTHER_V4_ROWS: seq<Row> := [
    Row(["168", "192"] + V4_REVERSE, PrivateReverse), Row(["254", "169"] + V4_REVERSE, PrivateReverse)]

  const V6_ROWS: seq<Row> := [
    Row(["8", "e", "f"] + V6_REVERSE, PrivateReverse), Row(["9", "e", "f"] + V6_REVERSE, PrivateReverse),
    Row(["a", "e", "f"] + V6_REVERSE, PrivateReverse), Row(["b", "e", "f"] + V6_REVERSE, PrivateReverse),
    Row(["c", "f"] + V6_REVERSE, PrivateReverse), Row(["d", "f"] + V6_REVERSE, PrivateReverse)]

  /** The subtrees answered with NXDOMAIN, in the order they are tried. */
  function Table(): seq<Row> {
    NAMED_ROWS + TEN_ROWS + Rows172() + OTHER_V4_ROWS + V6_ROWS
  }

  const LOCALHOST: Labels := ["localhost"]
  const MARKER_LABEL := "loop-probe"
  const MARKER_ZONE: Labels := ["egressdns", "invalid"]

  /** `LOOP_MARKER_SUFFIX` */
  function MarkerText(): string {
    MARKER_LABEL + ("." + Dotted(MARKER_ZONE))
  }

  predicate IsLoopMarker(name: string) {
    EndsWith(Lower(TrimEnd(name)), MarkerText())
  }

  function TextHit(name: string): Row -> bool {
    (r: Row) => SuffixMatches(name, Absolute(r.suffix))
  }

  /** `classify` over a table of rows. */
  function Classify(table: seq<Row>, qname: string): Option<Class> {
    var name := Normalize(qname);
    if SuffixMatches(name, Absolute(LOCALHOST)) then Some(Class(Localhost, Loopback))
    else if IsLoopMarker(name) then Some(Class(Invalid, LoopMarker))
    else
      var row := First(TextHit(name), table);
      if row.Some? then Some(Class(row.value.registry, NxDomain)) else None
  }

  // ----- the same decision on labels

  function LabelHit(n: Labels): Row -> bool {
    (r: Row) => LabelSuffix(n, r.suffix)
  }

  /** The third label from the end ends in the marker label, and the zone follows it. */
  predicate Marked(n: Labels) {
    |n| > |MARKER_ZONE| && LabelSuffix(n, MARKER_ZONE) && EndsWith(n[|n| - |MARKER_ZONE| - 1], MARKER_LABEL)
  }

  function ClassOf(table: seq<Row>, n: Labels): Option<Class> {
    if LabelSuffix(n, LOCALHOST) then Some(Class(Localhost, Loopback))
    else if Marked(n) then Some(Class(Invalid, LoopMarker))
    else
      var row := First(LabelHit(n), table);
      if row.Some? then Some(Class(row.value.registry, NxDomain)) else None
  }

  ghost predicate ValidTable(table: seq<Row>) {
    forall r :: r in table ==> r.suffix != [] && WellFormed(r.suffix)
  }

  lemma RowsValid(rows: seq<Row>, more: seq<Row>)
    requires ValidTable(rows) && ValidTable(more)
    ensures ValidTable(rows + more)
  {
  }

  lemma ReverseZones()
    ensures WellFormed(V4_REVERSE) && WellFormed(V6_REVERSE)
  {
  }

  lemma NamedValid()
    ensures ValidTable(NAMED_ROWS)
  {
  }

  lemma V4Valid()
    ensures ValidTable(TEN_ROWS) && ValidTable(OTHER_V4_ROWS)
  {
    ReverseZones();
  }

  lemma Valid172()
    ensures ValidTable(Rows172())
  {
    ReverseZones();
    assert '.' !in DIGITS && '.' !in "172";
  }

  lemma V6Valid()
    ensures ValidTable(V6_ROWS)
  {
    ReverseZones();
  }

  lemma TableIsValid()
    ensures ValidTable(Table())
  {
    NamedValid();
    V4Valid();
    Valid172();
    V6Valid();
    var a := NAMED_ROWS + TEN_ROWS;
    RowsValid(NAMED_ROWS, TEN_ROWS);
    RowsValid(a, Rows172());
    RowsValid(a + Rows172(), OTHER_V4_ROWS);
    RowsValid(a + Rows172() + OTHER_V4_ROWS, V6_ROWS);
  }

  lemma {:induction false} HitsAgree(table: seq<Row>, n: Labels)
    requires ValidTable(table) && WellFormed(n)
    ensures First(TextHit(Absolute(n)), table) == First(LabelHit(n), table)
  {
    if table != [] {
      assert table[0] in table;
      SuffixMatchesMeaning(n, table[0].suffix);
      assert forall r :: r in table[1..] ==> r in table;
      HitsAgree(table[1..], n);
    }
  }

  // ----- the loop marker

  /** A dot-free ending of text whose head is dot-terminated lies in the tail. */
  lemma DotFreeEnd(head: string, tail: string, w: string)
    requires head == "" || head[|head| - 1] == '.'
    requires '.' !in w && EndsWith(head + tail, w)
    ensures |w| <= |tail|
  {
    var d := head + tail;
    var k := |d| - |w|;
    assert forall i :: k <= i < |d| ==> d[i] == w[i - k];
    if head != "" {
      assert d[|head| - 1] == '.';
    }
  }

  /** Text ending in `w` with no dot in `w` ends within its last label. */
  lemma EndsInLastLabel(n: Labels, w: string)
    requires WellFormed(n) && n != [] && '.' !in w
    ensures EndsWith(Dotted(n), w) <==> EndsWith(n[|n| - 1], w)
  {
    var init, last := n[..|n| - 1], n[|n| - 1];
    DottedLast(n);
    var d := Dotted(n);
    if init != [] {
      JoinedEnds(init);
    }
    if EndsWith(d, w) {
      DotFreeEnd(Joined(init), last, w);
    }
    assert |w| <= |last| ==> d[|d| - |w|..] == last[|last| - |w|..];
  }

  /** Text ending in a label tail, a dot and a whole zone, read as labels. */
  lemma EndsInZone(n: Labels, w: string, zone: Labels)
    requires WellFormed(n) && WellFormed(zone) && zone != [] && '.' !in w && w != ""
    ensures EndsWith(Dotted(n), w + ("." + Dotted(zone))) <==>
            |n| > |zone| && LabelSuffix(n, zone) && EndsWith(n[|n| - |zone| - 1], w)
  {
    hide Dotted, EndsWith;
    if EndsWith(Dotted(n), w + ("." + Dotted(zone))) {
      EndsInDotted(Dotted(n), w, Dotted(zone));
      DottedMatchesMeaning(n, zone);
    }
    if |n| > |zone| && LabelSuffix(n, zone) {
      var p := n[..|n| - |zone|];
      assert n == p + zone && p[|p| - 1] == n[|n| - |zone| - 1];
      EndsBeforeZone(p, w, zone);
    }
  }

  lemma EndsBeforeZone(p: Labels, w: string, zone: Labels)
    requires WellFormed(p + zone) && p != [] && zone != [] && '.' !in w
    ensures EndsWith(Dotted(p + zone), w + ("." + Dotted(zone))) <==> EndsWith(p[|p| - 1], w)
  {
    hide Dotted, EndsWith;
    assert (p + zone)[..|p|] == p;
    PrefixWellFormed(p + zone, |p|);
    EndsInLastLabel(p, w);
    SplitZone(p, zone);
    DropCommonEnd(Dotted(p), w, "." + Dotted(zone));
  }

  lemma PrefixWellFormed(n: Labels, k: nat)
    requires WellFormed(n) && k <= |n|
    ensures WellFormed(n[..k])
  {
    assert forall l :: l in n[..k] ==> l in n;
  }

  lemma EndsInDotted(d: string, w: string, z: string)
    requires EndsWith(d, w + ("." + z)) && w != ""
    ensures DottedMatches(d, z) && d != z
  {
    var e := w + ("." + z);
    assert e[|w|..] == "." + z;
    assert d[|d| - |e|..][|w|..] == d[|d| - 1 - |z|..];
  }

  lemma DropCommonEnd(a: string, b: string, c: string)
    ensures EndsWith(a + c, b + c) <==> EndsWith(a, b)
  {
    if |b| <= |a| {
      var k := |a| - |b|;
      assert (a + c)[k..] == a[k..] + c;
      assert (a[k..] + c)[..|b|] == a[k..] && (b + c)[..|b|] == b;
    }
  }

  lemma SplitZone(p: Labels, zone: Labels)
    requires p != [] && zone != []
    ensures Dotted(p + zone) == Dotted(p) + ("." + Dotted(zone))
  {
    hide Joined, Dotted;
    JoinedConcat(p, zone);
    DottedJoined(p);
    DottedJoined(zone);
    DottedJoined(p + zone);
    var x, y := Dotted(p), Dotted(zone);
    assert (x + ".") + (y + ".") == (x + ("." + y)) + ".";
    SameBeforeDot(Dotted(p + zone), x + ("." + y));
  }

  lemma SameBeforeDot(a: string, b: string)
    requires a + "." == b + "."
    ensures a == b
  {
    assert a == (a + ".")[..|a|] && b == (b + ".")[..|b|];
  }

  lemma MarkerLabels()
    ensures WellFormed(MARKER_ZONE) && |MARKER_ZONE| == 2 && WellFormed([MARKER_LABEL])
    ensures LowerAll(MARKER_ZONE) == MARKER_ZONE && Lower(MARKER_LABEL) == MARKER_LABEL
    ensures |MARKER_ZONE[1]| == 7 && |LOCALHOST| == 1 && |LOCALHOST[0]| == 9 && WellFormed(LOCALHOST)
  {
    LowerLiteral(MARKER_LABEL);
    LowerLiteral("egressdns");
    LowerLiteral("invalid");
  }

  lemma LowerLiteral(t: string)
    requires forall i :: 0 <= i < |t| ==> LowerChar(t[i]) == t[i]
    ensures Lower(t) == t
  {
  }

  lemma MarkerSpelled()
    ensures MarkerText() == "loop-probe.egressdns.invalid"
  {
    assert MARKER_ZONE[1..] == ["invalid"] && ["invalid"][1..] == [];
    assert Joined(["invalid"]) == "invalid.";
    assert Joined(MARKER_ZONE) == "egressdns" + ("." + "invalid.");
    assert Joined(MARKER_ZONE) == "egressdns.invalid" + ".";
  }

  lemma MarkerMeaning(n: Labels)
    requires WellFormed(n)
    ensures IsLoopMarker(Absolute(n)) <==> Marked(LowerAll(n))
  {
    TrimName(n);
    LowerDotted(n);
    LowerWellFormed(n);
    MarkerLabels();
    EndsInZone(LowerAll(n), MARKER_LABEL, MARKER_ZONE);
  }

  // ----- main results

  /** For every well-formed name in any case, the byte-level decision is the label-level one. */
  lemma ClassifyMeansLabels(table: seq<Row>, n: Labels)
    requires ValidTable(table) && WellFormed(n)
    ensures Classify(table, Absolute(n)) == ClassOf(table, LowerAll(n))
    ensures n != [] ==> Classify(table, Dotted(n)) == ClassOf(table, LowerAll(n))
  {
    hide Normalize, SuffixMatches, IsLoopMarker, Marked, LabelSuffix, LowerAll, WellFormed, Dotted;
    var m := LowerAll(n);
    MarkerLabels();
    NormalizeName(n);
    LowerWellFormed(n);
    SuffixMatchesMeaning(m, LOCALHOST);
    MarkerMeaning(m);
    LowerTwice(n);
    HitsAgree(table, m);
  }

  /** The names documented as loop markers: those under the marker suffix. */
  predicate UnderMarker(n: Labels) {
    LabelSuffix(n, [MARKER_LABEL] + MARKER_ZONE)
  }

  /**
   The marker test is the one suffix test without a label boundary. It recognises every name under
   the marker suffix, and it is exact on a name unless the name is in the marker zone and its third
   label from the end ends in the marker label without being it.
   */
  lemma MarkerExactness(n: Labels)
    ensures UnderMarker(n) ==> Marked(n)
    ensures (Marked(n) <==> UnderMarker(n)) <==>
            !(|n| >= 3 && n[|n| - 2..] == MARKER_ZONE && EndsWith(n[|n| - 3], MARKER_LABEL) && n[|n| - 3] != MARKER_LABEL)
  {
    if |n| >= 3 {
      var s := [MARKER_LABEL] + MARKER_ZONE;
      assert n[|n| - 3..] == [n[|n| - 3]] + n[|n| - 2..];
      assert s[1..] == MARKER_ZONE;
      assert UnderMarker(n) <==> n[|n| - 3] == MARKER_LABEL && LabelSuffix(n, MARKER_ZONE);
    }
  }

  /** Such names exist, and they are answered as markers instead of with NXDOMAIN. */
  lemma MarkerOvermatches(x: string)
    requires x != "" && '.' !in x && Lower(x) == x
    ensures var n := [x + MARKER_LABEL] + MARKER_ZONE;
            WellFormed(n) && !UnderMarker(n) && Classify(Table(), Absolute(n)) == Some(Class(Invalid, LoopMarker))
  {
    hide Table, Classify, Absolute;
    var n: Labels := [x + MARKER_LABEL] + MARKER_ZONE;
    MarkerLabels();
    LowerConcat(x, MARKER_LABEL);
    assert [MARKER_LABEL][0] in [MARKER_LABEL];
    assert LowerAll(n) == n;
    assert (x + MARKER_LABEL)[|x|..] == MARKER_LABEL;
    assert n[1..] == MARKER_ZONE && n[2] == MARKER_ZONE[1];
    assert !LabelSuffix(n, LOCALHOST);
    TableIsValid();
    ClassifyMeansLabels(Table(), n);
    MarkerExactness(n);
  }
}
