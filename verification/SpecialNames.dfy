/** Which names the special-use table covers, spelled out. */
module SpecialNames {
  import opened Seqs
  import opened Names
  import opened SpecialUse

  // ----- the private reverse zones

  /** 10/8, 172.16/12, 192.168/16 and 169.254/16, by the labels before in-addr.arpa. */
  predicate PrivateV4(n: Labels) {
    && |n| >= 3 && n[|n| - 2..] == ["in-addr", "arpa"]
    && var a := n[|n| - 3];
       || a == "10"
       || (|n| >= 4 &&
           var b := n[|n| - 4];
           || (a == "172" && b in {"16", "17", "18", "19", "20", "21", "22", "23", "24", "25", "26", "27", "28", "29", "30", "31"})
           || (a == "192" && b == "168") || (a == "169" && b == "254"))
  }

  /** fc00::/7 and fe80::/10, by the nibbles before ip6.arpa. */
  predicate PrivateV6(n: Labels) {
    && |n| >= 4 && n[|n| - 2..] == ["ip6", "arpa"] && n[|n| - 3] == "f"
    && (n[|n| - 4] in {"c", "d"} || (|n| >= 5 && n[|n| - 4] == "e" && n[|n| - 5] in {"8", "9", "a", "b"}))
  }

  /** The class of a lower-case name, without the table. */
  ghost function Expected(n: Labels): Option<Class> {
    if n != [] && n[|n| - 1] == "localhost" then Some(Class(Localhost, Loopback))
    else if Marked(n) then Some(Class(Invalid, LoopMarker))
    else if n != [] && n[|n| - 1] == "invalid" then Some(Class(Invalid, NxDomain))
    else if n != [] && n[|n| - 1] == "local" then Some(Class(MulticastDns, NxDomain))
    else if |n| >= 2 && n[|n| - 2..] == ["home", "arpa"] then Some(Class(HomeArpa, NxDomain))
    else if n != [] && n[|n| - 1] == "onion" then Some(Class(Onion, NxDomain))
    else if PrivateV4(n) || PrivateV6(n) then Some(Class(PrivateReverse, NxDomain))
    else None
  }

  // ----- searching the table

  lemma {:induction false} FirstConcat<T>(p: T -> bool, a: seq<T>, b: seq<T>)
    ensures First(p, a + b) == if First(p, a).Some? then First(p, a) else First(p, b)
  {
    if a == [] {
      assert a + b == b;
    } else {
      assert (a + b)[0] == a[0] && (a + b)[1..] == a[1..] + b;
      FirstConcat(p, a[1..], b);
    }
  }

  ghost predicate AnyCovers(rows: seq<Row>, n: Labels) {
    exists i :: 0 <= i < |rows| && LabelSuffix(n, rows[i].suffix)
  }

  lemma {:induction false} FirstOfKind(rows: seq<Row>, n: Labels, kind: Registry)
    requires AllOf(rows, kind)
    ensures First(LabelHit(n), rows).Some? <==> AnyCovers(rows, n)
    ensures First(LabelHit(n), rows).Some? ==> First(LabelHit(n), rows).value.registry == kind
  {
    hide LabelSuffix;
    if rows != [] {
      FirstOfKind(rows[1..], n, kind);
      assert forall i :: 0 < i < |rows| ==> rows[i] == rows[1..][i - 1];
      assert AnyCovers(rows, n) <==> LabelSuffix(n, rows[0].suffix) || AnyCovers(rows[1..], n) by {
        if AnyCovers(rows[1..], n) {
          var i :| 0 <= i < |rows[1..]| && LabelSuffix(n, rows[1..][i].suffix);
          assert rows[i + 1] == rows[1..][i];
        }
      }
    }
  }

  lemma OneLabel(n: Labels, t: string)
    ensures LabelSuffix(n, [t]) <==> n != [] && n[|n| - 1] == t
  {
    if n != [] {
      assert n[|n| - 1..] == [n[|n| - 1]];
    }
  }

  /** One more label in front of a suffix. */
  lemma SuffixCons(n: Labels, t: string, z: Labels)
    ensures LabelSuffix(n, [t] + z) <==> |n| > |z| && LabelSuffix(n, z) && n[|n| - |z| - 1] == t
  {
    if |n| > |z| {
      var k := |n| - |z| - 1;
      assert n[k..] == [n[k]] + n[k + 1..];
      assert ([t] + z)[1..] == z && n[k..][1..] == n[k + 1..];
    }
  }

  lemma TwoLabels(n: Labels, s: string, t: string)
    ensures LabelSuffix(n, [s, t]) <==> |n| >= 2 && n[|n| - 2..] == [s, t]
  {
  }

  lemma TwoMore(n: Labels, s: string, t: string, z: Labels)
    ensures LabelSuffix(n, [s, t] + z) <==> |n| > |z| + 1 && LabelSuffix(n, z) && n[|n| - |z| - 1] == t && n[|n| - |z| - 2] == s
  {
    assert [s, t] + z == [s] + ([t] + z);
    SuffixCons(n, t, z);
    SuffixCons(n, s, [t] + z);
  }

  lemma ThreeMore(n: Labels, r: string, s: string, t: string, z: Labels)
    ensures LabelSuffix(n, [r, s, t] + z) <==>
            |n| > |z| + 2 && LabelSuffix(n, z) && n[|n| - |z| - 1] == t && n[|n| - |z| - 2] == s && n[|n| - |z| - 3] == r
  {
    assert [r, s, t] + z == [r] + ([s, t] + z);
    TwoMore(n, s, t, z);
    SuffixCons(n, r, [s, t] + z);
  }

  // ----- group by group

  lemma NamedRows(n: Labels)
    ensures First(LabelHit(n), NAMED_ROWS) ==
            if LabelSuffix(n, ["invalid"]) then Some(NAMED_ROWS[0])
            else if LabelSuffix(n, ["local"]) then Some(NAMED_ROWS[1])
            else if LabelSuffix(n, ["home", "arpa"]) then Some(NAMED_ROWS[2])
            else if LabelSuffix(n, ["onion"]) then Some(NAMED_ROWS[3])
            else None
  {
    hide LabelSuffix;
    var rows := NAMED_ROWS;
    assert rows[1..][0] == rows[1] && rows[1..][1..] == rows[2..];
    assert rows[2..][0] == rows[2] && rows[2..][1..] == rows[3..];
    assert rows[3..][0] == rows[3] && rows[3..][1..] == [];
    assert First(LabelHit(n), rows[3..]) == if LabelSuffix(n, ["onion"]) then Some(rows[3]) else None;
    assert First(LabelHit(n), rows[2..]) == if LabelSuffix(n, ["home", "arpa"]) then Some(rows[2]) else First(LabelHit(n), rows[3..]);
  }

  lemma TenRows(n: Labels)
    ensures AnyCovers(TEN_ROWS, n) <==> |n| >= 3 && LabelSuffix(n, V4_REVERSE) && n[|n| - 3] == "10"
  {
    SuffixCons(n, "10", V4_REVERSE);
    hide LabelSuffix;
    assert TEN_ROWS[0].suffix == ["10"] + V4_REVERSE;
  }

  function Octet(i: nat): string
    requires i < 16
  {
    [DIGITS[(16 + i) / 10], DIGITS[(16 + i) % 10]]
  }

  lemma Octets()
    ensures Octet(0) == "16" && Octet(1) == "17" && Octet(2) == "18" && Octet(3) == "19"
    ensures Octet(4) == "20" && Octet(5) == "21" && Octet(6) == "22" && Octet(7) == "23"
    ensures Octet(8) == "24" && Octet(9) == "25" && Octet(10) == "26" && Octet(11) == "27"
    ensures Octet(12) == "28" && Octet(13) == "29" && Octet(14) == "30" && Octet(15) == "31"
  {
  }

  ghost predicate IsOctet(b: string) {
    exists i :: 0 <= i < 16 && b == Octet(i)
  }

  lemma OctetSet(b: string)
    ensures IsOctet(b) <==>
            b in {"16", "17", "18", "19", "20", "21", "22", "23", "24", "25", "26", "27", "28", "29", "30", "31"}
  {
    Octets();
    hide Octet;
    if IsOctet(b) {
      var i :| 0 <= i < 16 && b == Octet(i);
      assert i in {0, 1, 2, 3, 4, 5, 6, 7, 8, 9, 10, 11, 12, 13, 14, 15};
    }
  }

  lemma Zone172(n: Labels)
    ensures AnyCovers(Rows172(), n) <==>
            |n| >= 4 && LabelSuffix(n, V4_REVERSE) && n[|n| - 3] == "172" && IsOctet(n[|n| - 4])
  {
    var rows := Rows172();
    forall i | 0 <= i < 16
      ensures LabelSuffix(n, rows[i].suffix) <==>
              |n| >= 4 && LabelSuffix(n, V4_REVERSE) && n[|n| - 3] == "172" && n[|n| - 4] == Octet(i)
    {
      assert rows[i].suffix == [Octet(i), "172"] + V4_REVERSE;
      TwoMore(n, Octet(i), "172", V4_REVERSE);
    }
    hide LabelSuffix, Octet;
    if |n| >= 4 && LabelSuffix(n, V4_REVERSE) && n[|n| - 3] == "172" && IsOctet(n[|n| - 4]) {
      var i :| 0 <= i < 16 && n[|n| - 4] == Octet(i);
      assert LabelSuffix(n, rows[i].suffix);
    }
  }

  lemma OtherV4(n: Labels)
    ensures AnyCovers(OTHER_V4_ROWS, n) <==>
            && |n| >= 4 && LabelSuffix(n, V4_REVERSE)
            && ((n[|n| - 3] == "192" && n[|n| - 4] == "168") || (n[|n| - 3] == "169" && n[|n| - 4] == "254"))
  {
    TwoMore(n, "168", "192", V4_REVERSE);
    TwoMore(n, "254", "169", V4_REVERSE);
    hide LabelSuffix;
    assert OTHER_V4_ROWS[0].suffix == ["168", "192"] + V4_REVERSE && OTHER_V4_ROWS[1].suffix == ["254", "169"] + V4_REVERSE;
  }

  lemma V6Rows(n: Labels)
    ensures AnyCovers(V6_ROWS, n) <==>
            && |n| >= 4 && LabelSuffix(n, V6_REVERSE) && n[|n| - 3] == "f"
            && (n[|n| - 4] in {"c", "d"} || (|n| >= 5 && n[|n| - 4] == "e" && n[|n| - 5] in {"8", "9", "a", "b"}))
  {
    ThreeMore(n, "8", "e", "f", V6_REVERSE);
    ThreeMore(n, "9", "e", "f", V6_REVERSE);
    ThreeMore(n, "a", "e", "f", V6_REVERSE);
    ThreeMore(n, "b", "e", "f", V6_REVERSE);
    TwoMore(n, "c", "f", V6_REVERSE);
    TwoMore(n, "d", "f", V6_REVERSE);
    hide LabelSuffix;
    var rows := V6_ROWS;
    assert rows[0].suffix == ["8", "e", "f"] + V6_REVERSE && rows[1].suffix == ["9", "e", "f"] + V6_REVERSE;
    assert rows[2].suffix == ["a", "e", "f"] + V6_REVERSE && rows[3].suffix == ["b", "e", "f"] + V6_REVERSE;
    assert rows[4].suffix == ["c", "f"] + V6_REVERSE && rows[5].suffix == ["d", "f"] + V6_REVERSE;
  }

  // ----- the whole table

  lemma ReverseZonesApart(n: Labels)
    ensures LabelSuffix(n, V4_REVERSE) <==> |n| >= 2 && n[|n| - 2..] == ["in-addr", "arpa"]
    ensures LabelSuffix(n, V6_REVERSE) <==> |n| >= 2 && n[|n| - 2..] == ["ip6", "arpa"]
  {
  }

  ghost function Unnamed(n: Labels): Option<Row> {
    First(LabelHit(n), TEN_ROWS + Rows172() + OTHER_V4_ROWS + V6_ROWS)
  }

  lemma UnnamedSearch(n: Labels)
    ensures Unnamed(n).Some? <==>
            AnyCovers(TEN_ROWS, n) || AnyCovers(Rows172(), n) || AnyCovers(OTHER_V4_ROWS, n) || AnyCovers(V6_ROWS, n)
    ensures Unnamed(n).Some? ==> Unnamed(n).value.registry == PrivateReverse
  {
    AllPrivate();
    hide AnyCovers, First, Rows172, LabelHit;
    FourGroups(TEN_ROWS, Rows172(), OTHER_V4_ROWS, V6_ROWS, n, PrivateReverse);
  }

  predicate AllOf(rows: seq<Row>, kind: Registry) {
    forall i :: 0 <= i < |rows| ==> rows[i].registry == kind
  }

  lemma AllPrivate()
    ensures AllOf(TEN_ROWS, PrivateReverse) && AllOf(Rows172(), PrivateReverse)
    ensures AllOf(OTHER_V4_ROWS, PrivateReverse) && AllOf(V6_ROWS, PrivateReverse)
  {
  }

  lemma FourGroups(a: seq<Row>, b: seq<Row>, c: seq<Row>, d: seq<Row>, n: Labels, kind: Registry)
    requires AllOf(a, kind) && AllOf(b, kind) && AllOf(c, kind) && AllOf(d, kind)
    ensures var r := First(LabelHit(n), a + b + c + d);
            && (r.Some? <==> AnyCovers(a, n) || AnyCovers(b, n) || AnyCovers(c, n) || AnyCovers(d, n))
            && (r.Some? ==> r.value.registry == kind)
  {
    var p := LabelHit(n);
    FirstOfKind(a, n, kind);
    FirstOfKind(b, n, kind);
    FirstOfKind(c, n, kind);
    FirstOfKind(d, n, kind);
    hide AnyCovers, First, LabelHit, AllOf;
    FirstConcat(p, a + b + c, d);
    FirstConcat(p, a + b, c);
    FirstConcat(p, a, b);
  }

  lemma UnnamedV4(n: Labels)
    ensures AnyCovers(TEN_ROWS, n) || AnyCovers(Rows172(), n) || AnyCovers(OTHER_V4_ROWS, n) <==> PrivateV4(n)
  {
    hide AnyCovers, Rows172, LabelSuffix, IsOctet;
    TenRows(n);
    Zone172(n);
    OtherV4(n);
    ReverseZonesApart(n);
    if |n| >= 4 {
      OctetSet(n[|n| - 4]);
    }
  }

  lemma UnnamedRows(n: Labels)
    ensures Unnamed(n).Some? <==> PrivateV4(n) || PrivateV6(n)
    ensures Unnamed(n).Some? ==> Unnamed(n).value.registry == PrivateReverse
  {
    hide AnyCovers, Rows172, LabelSuffix, Unnamed, PrivateV4;
    UnnamedSearch(n);
    UnnamedV4(n);
    V6Rows(n);
    ReverseZonesApart(n);
  }

  lemma TableSplits(n: Labels)
    ensures First(LabelHit(n), Table()) ==
            if First(LabelHit(n), NAMED_ROWS).Some? then First(LabelHit(n), NAMED_ROWS) else Unnamed(n)
  {
    hide First;
    var rest := TEN_ROWS + Rows172() + OTHER_V4_ROWS + V6_ROWS;
    assert Table() == NAMED_ROWS + rest;
    FirstConcat(LabelHit(n), NAMED_ROWS, rest);
  }

  /** The table says what the registry says, for every list of lower-case labels. */
  lemma TableIsExpected(n: Labels)
    ensures ClassOf(Table(), n) == Expected(n)
  {
    TableSplits(n);
    NamedRows(n);
    UnnamedRows(n);
    OneLabel(n, "localhost");
    OneLabel(n, "invalid");
    OneLabel(n, "local");
    OneLabel(n, "onion");
    TwoLabels(n, "home", "arpa");
    hide LabelSuffix, First, Table, Marked, Unnamed, PrivateV4, PrivateV6;
  }

  /**
   The class of every well-formed name, in any case and spelling: localhost, the loop marker, then
   `invalid`, `local`, `home.arpa`, `onion` and the private reverse zones with everything below
   them, and nothing else.
   */
  lemma SpecialNamesExactly(n: Labels)
    requires WellFormed(n)
    ensures Classify(Table(), Absolute(n)) == Expected(LowerAll(n))
    ensures n != [] ==> Classify(Table(), Dotted(n)) == Expected(LowerAll(n))
  {
    hide Table, Expected, Classify, ClassOf, Absolute, Dotted, LowerAll;
    TableIsValid();
    ClassifyMeansLabels(Table(), n);
    TableIsExpected(LowerAll(n));
  }
}
