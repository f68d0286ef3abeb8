/** Official prefix snapshots: sorted tables and the mask test over them. */
module Prefixes {
  import opened Seqs
  import opened Sorting
  import opened Bits

  datatype IpAddr = V4(bits: nat) | V6(bits: nat)

  /** An `IpNet`: the address as written (host bits may be set) and the prefix length. */
  datatype Net = Net(addr: nat, len: nat)

  const V4_BITS: nat := 32
  const V6_BITS: nat := 128

  predicate ValidAddr(a: IpAddr) {
    match a
    case V4(b) => b < Pow2(V4_BITS)
    case V6(b) => b < Pow2(V6_BITS)
  }

  predicate ValidNet(n: Net, width: nat) {
    n.len <= width && n.addr < Pow2(width)
  }

  predicate ValidNets(nets: seq<Net>, width: nat) {
    forall n :: n in nets ==> ValidNet(n, width)
  }

  /** Number of addresses in a prefix. */
  function Size(n: Net, width: nat): (r: nat)
    requires n.len <= width
    ensures r > 0
  {
    Pow2(width - n.len)
  }

  function Network(n: Net, width: nat): nat
    requires n.len <= width
  {
    LowBitsBound(n.addr, width - n.len);
    n.addr - LowBits(n.addr, width - n.len)
  }

  function Netmask(n: Net, width: nat): nat
    requires n.len <= width
  {
    HighMask(width - n.len, width)
  }

  /** Interval membership, the meaning of a CIDR block. */
  predicate InNet(a: nat, n: Net, width: nat)
    requires n.len <= width
  {
    Network(n, width) <= a < Network(n, width) + Size(n, width)
  }

  datatype Masked = Masked(network: nat, mask: nat)

  datatype PrefixSnapshot = PrefixSnapshot(v4: seq<Net>, v6: seq<Net>, v4Masks: seq<Masked>, v6Masks: seq<Masked>)

  function NetLeq(): (Net, Net) -> bool {
    (a: Net, b: Net) => a.addr < b.addr || (a.addr == b.addr && a.len <= b.len)
  }

  /** `Vec::dedup`: drop elements equal to their successor. */
  function Dedup<T(==)>(s: seq<T>): seq<T> {
    if |s| < 2 then s
    else if s[0] == s[1] then Dedup(s[1..])
    else [s[0]] + Dedup(s[1..])
  }

  function Masks(nets: seq<Net>, width: nat): seq<Masked>
    requires ValidNets(nets, width)
  {
    if nets == [] then []
    else
      assert nets[0] in nets;
      [Masked(Network(nets[0], width), Netmask(nets[0], width))] + Masks(nets[1..], width)
  }

  function Table(nets: seq<Net>): seq<Net> {
    Dedup(Sort(nets, NetLeq()))
  }

  function NewSnapshot(v4: seq<Net>, v6: seq<Net>): PrefixSnapshot
    requires ValidNets(v4, V4_BITS) && ValidNets(v6, V6_BITS)
  {
    TableMembers(v4);
    TableMembers(v6);
    PrefixSnapshot(Table(v4), Table(v6), Masks(Table(v4), V4_BITS), Masks(Table(v6), V6_BITS))
  }

  predicate MaskTest(masks: seq<Masked>, a: nat, width: nat) {
    exists i :: 0 <= i < |masks| && And(a, masks[i].mask, width) == masks[i].network
  }

  /** An IPv4-mapped address, `::ffff:0:0/96`. */
  predicate IsV4Mapped(a: nat) {
    a / Pow2(V4_BITS) == 0xffff
  }

  predicate Contains(s: PrefixSnapshot, a: IpAddr) {
    match a
    case V4(b) => MaskTest(s.v4Masks, b, V4_BITS)
    case V6(b) => !IsV4Mapped(b) && MaskTest(s.v6Masks, b, V6_BITS)
  }

  lemma {:induction false} DedupMembers<T>(s: seq<T>)
    ensures forall x :: x in Dedup(s) <==> x in s
  {
    if |s| >= 2 {
      DedupMembers(s[1..]);
      assert s == [s[0]] + s[1..];
      forall x
        ensures x in Dedup(s) <==> x in s
      {
        assert x in Dedup(s[1..]) <==> x in s[1..];
      }
    }
  }

  /** On a sorted sequence, dropping adjacent repeats drops every repeat. */
  lemma {:induction false} DedupDistinct(s: seq<Net>)
    requires Sorted(s, NetLeq())
    ensures Distinct(Dedup(s)) && Sorted(Dedup(s), NetLeq())
  {
    if |s| >= 2 {
      DedupDistinct(s[1..]);
      DedupMembers(s[1..]);
      if s[0] != s[1] {
        var d := Dedup(s[1..]);
        assert Dedup(s) == [s[0]] + d;
        forall x | x in d
          ensures x != s[0] && NetLeq()(s[0], x)
        {
          assert x in s[1..];
          var j :| 0 <= j < |s[1..]| && s[1..][j] == x;
          var k := j + 1;
          assert s[k] == x;
          assert NetLeq()(s[0], s[1]);
          assert k > 1 ==> NetLeq()(s[1], s[k]);
        }
        forall i | 0 <= i < |d|
          ensures d[i] != s[0] && NetLeq()(s[0], d[i])
        {
          assert d[i] in d;
        }
      }
    }
  }

  lemma TableMembers(nets: seq<Net>)
    ensures forall n :: n in Table(nets) <==> n in nets
  {
    SortPermutes(nets, NetLeq());
    DedupMembers(Sort(nets, NetLeq()));
  }

  /** The prefix table holds the configured prefixes, each once, in ascending order. */
  lemma TableIsSortedSet(nets: seq<Net>)
    ensures forall n :: n in Table(nets) <==> n in nets
    ensures Distinct(Table(nets)) && Sorted(Table(nets), NetLeq())
    ensures var t := Table(nets);
            forall i, j :: 0 <= i < j < |t| ==> t[i].addr < t[j].addr || (t[i].addr == t[j].addr && t[i].len < t[j].len)
  {
    TableMembers(nets);
    SortSorts(nets, NetLeq());
    DedupDistinct(Sort(nets, NetLeq()));
    var t := Table(nets);
    hide Table;
    forall i, j | 0 <= i < j < |t|
      ensures t[i].addr < t[j].addr || (t[i].addr == t[j].addr && t[i].len < t[j].len)
    {
      assert NetLeq()(t[i], t[j]) && t[i] != t[j];
    }
  }

  /** The mapped addresses are one block of 2^32, after the first 0xffff. */
  lemma MappedIsInterval(a: nat)
    ensures IsV4Mapped(a) <==> 0xffff_0000_0000 <= a < 0x1_0000_0000_0000
  {
    SixteenBits();
    Pow2Sum(16, 16);
    hide Pow2;
    assert Pow2(V4_BITS) == 0x1_0000_0000;
  }

  /** Masking an address and comparing with the network is interval membership. */
  lemma MaskIsInterval(a: nat, n: Net, width: nat)
    requires ValidNet(n, width) && a < Pow2(width)
    ensures And(a, Netmask(n, width), width) == Network(n, width) <==> InNet(a, n, width)
  {
    AndHighMask(a, width - n.len, width);
    LowBitsBound(a, width);
    SameBlock(a, n.addr, width - n.len);
  }

  lemma {:induction false} MasksMeanIntervals(nets: seq<Net>, a: nat, width: nat)
    requires ValidNets(nets, width) && a < Pow2(width)
    ensures MaskTest(Masks(nets, width), a, width) <==> exists n :: n in nets && InNet(a, n, width)
  {
    if nets != [] {
      var m, rest := Masks(nets, width), Masks(nets[1..], width);
      MasksMeanIntervals(nets[1..], a, width);
      MaskIsInterval(a, nets[0], width);
      assert MaskTest(m, a, width) <==> InNet(a, nets[0], width) || MaskTest(rest, a, width) by {
        assert forall i :: 0 < i < |m| ==> m[i] == rest[i - 1];
        assert forall i :: 0 <= i < |rest| ==> rest[i] == m[i + 1];
        assert m[0].network == Network(nets[0], width);
      }
    }
  }

  lemma MaskTestIsInterval(nets: seq<Net>, a: nat, width: nat)
    requires ValidNets(nets, width) && a < Pow2(width)
    ensures ValidNets(Table(nets), width)
    ensures MaskTest(Masks(Table(nets), width), a, width) <==> exists n :: n in nets && InNet(a, n, width)
  {
    TableMembers(nets);
    MasksMeanIntervals(Table(nets), a, width);
  }

  /**
   `PrefixSnapshot::contains` over the sorted, deduplicated mask tables is interval membership
   in the CIDR list the snapshot was built from; IPv4-mapped addresses are never inside.
   */
  lemma ContainsIsInterval(v4: seq<Net>, v6: seq<Net>, a: IpAddr)
    requires ValidNets(v4, V4_BITS) && ValidNets(v6, V6_BITS) && ValidAddr(a)
    ensures Contains(NewSnapshot(v4, v6), a) <==>
            match a
            case V4(b) => exists n :: n in v4 && InNet(b, n, V4_BITS)
            case V6(b) => !IsV4Mapped(b) && exists n :: n in v6 && InNet(b, n, V6_BITS)
  {
    match a
    case V4(b) => MaskTestIsInterval(v4, b, V4_BITS);
    case V6(b) => MaskTestIsInterval(v6, b, V6_BITS);
  }
}
