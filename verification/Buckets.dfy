/**
 Bucket arithmetic of the stratified sampler: how a prefix is cut into buckets, how an address
 is drawn from a bucket, and how an address is traced back to its bucket.
 */
module Buckets {
  import opened Seqs
  import opened Bits
  import opened Prefixes

  const MAX_BUCKETS_PER_PREFIX: nat := 4_096
  const SKIP_TRIES: nat := 4

  datatype Bucket = Bucket(net: Net, index: nat)

  /** Never more buckets than addresses, and at least one. */
  function BucketsFor(perPrefix: nat, n: Net): (r: nat)
    requires perPrefix >= 1 && n.len <= V4_BITS
    ensures 1 <= r <= perPrefix && r <= Size(n, V4_BITS) && (r == perPrefix || r == Size(n, V4_BITS))
  {
    if perPrefix <= Size(n, V4_BITS) then perPrefix else Size(n, V4_BITS)
  }

  /** Addresses per bucket; the division need not be exact. */
  function SliceSize(total: nat, count: nat): (r: nat)
    requires 1 <= count <= total
    ensures r >= 1
  {
    var q := total / count;
    assert total == count * q + total % count;
    assert q <= 0 ==> count * q <= 0;
    q
  }

  function SliceStart(index: nat, size: nat): nat {
    index * size
  }

  /** Which slice an offset falls into; what the division leaves over belongs to the last one. */
  function SliceIndex(offset: nat, size: nat, count: nat): (r: nat)
    requires size >= 1 && count >= 1
    ensures r < count
  {
    var index := offset / size;
    if index <= count - 1 then index else count - 1
  }

  lemma SliceFits(total: nat, count: nat, index: nat)
    requires index < count <= total
    ensures SliceStart(index, SliceSize(total, count)) + SliceSize(total, count) <= total
  {
    var size := SliceSize(total, count);
    assert total == count * size + total % count;
    SliceGap(count, index, size);
  }

  lemma SliceGap(count: int, index: int, size: int)
    requires index < count && size >= 0
    ensures index * size + size <= count * size
  {
    var gap := count - index - 1;
    assert count * size == index * size + size + gap * size;
    assert gap * size >= 0;
  }

  lemma SliceIndexInverts(index: nat, size: nat, count: nat, within: nat)
    requires within < size && index < count
    ensures SliceIndex(SliceStart(index, size) + within, size, count) == index
  {
    DivModUnique(index * size + within, size, index, within);
  }

  function BucketSize(perPrefix: nat, n: Net): (r: nat)
    requires perPrefix >= 1 && n.len <= V4_BITS
    ensures r >= 1
  {
    SliceSize(Size(n, V4_BITS), BucketsFor(perPrefix, n))
  }

  predicate ValidBucket(perPrefix: nat, b: Bucket) {
    && perPrefix >= 1
    && ValidNet(b.net, V4_BITS)
    && b.index < BucketsFor(perPrefix, b.net)
  }

  function Base(perPrefix: nat, b: Bucket): nat
    requires ValidBucket(perPrefix, b)
  {
    Network(b.net, V4_BITS) + SliceStart(b.index, BucketSize(perPrefix, b.net))
  }

  /** Addresses that end in 0 or in 255; the sampler steps past them. */
  predicate Reserved(address: nat) {
    address % 256 == 0 || address % 256 == 255
  }

  /** The bounded skip loop: step past reserved host values, wrapping inside the bucket. */
  function Skip(base: nat, size: nat, offset: nat, tries: nat): (r: nat)
    requires offset < size
    ensures r < size
    decreases tries
  {
    if tries == 0 || !Reserved(base + offset) then offset
    else Skip(base, size, (offset + 1) % size, tries - 1)
  }

  /** The address drawn from a bucket for the hash value `h`. */
  function AddressOf(perPrefix: nat, b: Bucket, h: nat): nat
    requires ValidBucket(perPrefix, b)
  {
    var size := BucketSize(perPrefix, b.net);
    Base(perPrefix, b) + Skip(Base(perPrefix, b), size, h % size, SKIP_TRIES)
  }

  /** The skip loop of `address_in_bucket`. */
  method SkipLoop(base: nat, size: nat, start: nat) returns (offset: nat)
    requires start < size
    ensures offset == Skip(base, size, start, SKIP_TRIES)
  {
    offset := start;
    var tries := 0;
    while tries < SKIP_TRIES
      invariant 0 <= tries <= SKIP_TRIES && 0 <= offset < size
      invariant Skip(base, size, offset, SKIP_TRIES - tries) == Skip(base, size, start, SKIP_TRIES)
    {
      if !Reserved(base + offset) {
        break;
      }
      offset := (offset + 1) % size;
      tries := tries + 1;
    }
  }

  function ToAddress(value: nat): Option<nat> {
    if value > Pow2(V4_BITS) - 1 then None else Some(value)
  }

  /** A valid bucket always yields an address: the overflow exit is never taken. */
  method AddressInBucket(perPrefix: nat, b: Bucket, h: nat) returns (r: Option<nat>)
    requires ValidBucket(perPrefix, b)
    ensures r == Some(AddressOf(perPrefix, b, h))
  {
    var size := BucketSize(perPrefix, b.net);
    var base := Base(perPrefix, b);
    var offset := SkipLoop(base, size, h % size);
    AddressInsideBucket(perPrefix, b, h);
    r := ToAddress(base + offset);
  }

  /** Three consecutive addresses are never all reserved. */
  lemma ThreeInARow(x: nat)
    ensures !(Reserved(x) && Reserved(x + 1) && Reserved(x + 2))
  {
  }

  /**
   Four tries are enough: the loop ends on an unreserved address exactly when the bucket has
   one, and a bucket has none only when it is a single reserved address or a `.255`/`.0` pair.
   */
  lemma SkipFindsUnreserved(base: nat, size: nat, offset: nat)
    requires offset < size
    ensures Reserved(base + Skip(base, size, offset, SKIP_TRIES)) <==>
            (size == 1 && Reserved(base)) || (size == 2 && base % 256 == 255)
    ensures size >= 3 ==> !Reserved(base + Skip(base, size, offset, SKIP_TRIES))
  {
    var o1 := (offset + 1) % size;
    var o2 := (o1 + 1) % size;
    var o3 := (o2 + 1) % size;
    var o4 := (o3 + 1) % size;
    Successor(offset, size);
    Successor(o1, size);
    Successor(o2, size);
    Successor(o3, size);
    ThreeInARow(base);
    ThreeInARow(base + offset);
    SkipUnrolled(base, size, offset, o1, o2, o3, o4);
  }

  lemma SkipUnrolled(base: nat, size: nat, o: nat, o1: nat, o2: nat, o3: nat, o4: nat)
    requires o < size && o1 == (o + 1) % size && o2 == (o1 + 1) % size
    requires o3 == (o2 + 1) % size && o4 == (o3 + 1) % size
    ensures Skip(base, size, o, 4) ==
            if !Reserved(base + o) then o
            else if !Reserved(base + o1) then o1
            else if !Reserved(base + o2) then o2
            else if !Reserved(base + o3) then o3
            else o4
  {
    assert Skip(base, size, o4, 0) == o4;
    assert Skip(base, size, o3, 1) == if !Reserved(base + o3) then o3 else o4;
    assert Skip(base, size, o2, 2) == if !Reserved(base + o2) then o2 else Skip(base, size, o3, 1);
    assert Skip(base, size, o1, 3) == if !Reserved(base + o1) then o1 else Skip(base, size, o2, 2);
  }

  lemma Successor(o: nat, size: nat)
    requires o < size
    ensures (o + 1) % size == if o + 1 < size then o + 1 else 0
  {
    if o + 1 < size {
      DivModUnique(o + 1, size, 0, o + 1);
    } else {
      DivModUnique(o + 1, size, 1, 0);
    }
  }

  /** A drawn address lies in its bucket's slice, hence in its prefix and in 32 bits. */
  lemma AddressInsideBucket(perPrefix: nat, b: Bucket, h: nat)
    requires ValidBucket(perPrefix, b)
    ensures var size := BucketSize(perPrefix, b.net);
            Base(perPrefix, b) <= AddressOf(perPrefix, b, h) < Base(perPrefix, b) + size
    ensures InNet(AddressOf(perPrefix, b, h), b.net, V4_BITS)
    ensures AddressOf(perPrefix, b, h) < Pow2(V4_BITS)
  {
    SliceFits(Size(b.net, V4_BITS), BucketsFor(perPrefix, b.net), b.index);
    NetFits(b.net, V4_BITS);
  }

  /** A prefix never reaches past the end of the address space. */
  lemma NetFits(n: Net, width: nat)
    requires ValidNet(n, width)
    ensures Network(n, width) + Size(n, width) <= Pow2(width)
  {
    BlockFits(n.addr, width - n.len, width);
  }

  function FirstContaining(prefixes: seq<Net>, addr: nat): Option<Net>
    requires ValidNets(prefixes, V4_BITS)
  {
    if prefixes == [] then None
    else
      assert prefixes[0] in prefixes;
      if InNet(addr, prefixes[0], V4_BITS) then Some(prefixes[0])
      else FirstContaining(prefixes[1..], addr)
  }

  /** Trace an address back: the first prefix that holds it, and the slice of that prefix. */
  function Locate(perPrefix: nat, prefixes: seq<Net>, addr: nat): Option<Bucket>
    requires perPrefix >= 1 && ValidNets(prefixes, V4_BITS)
  {
    match FirstContaining(prefixes, addr)
    case None => None
    case Some(n) =>
      FirstContainingMember(prefixes, addr);
      Some(Bucket(n, SliceIndex(addr - Network(n, V4_BITS), BucketSize(perPrefix, n), BucketsFor(perPrefix, n))))
  }

  lemma {:induction false} FirstContainingMember(prefixes: seq<Net>, addr: nat)
    requires ValidNets(prefixes, V4_BITS)
    ensures FirstContaining(prefixes, addr).Some? ==>
              var n := FirstContaining(prefixes, addr).value;
              n in prefixes && ValidNet(n, V4_BITS) && InNet(addr, n, V4_BITS)
    ensures FirstContaining(prefixes, addr).None? ==>
              forall n :: n in prefixes ==> !InNet(addr, n, V4_BITS)
  {
    if prefixes != [] {
      assert prefixes[0] in prefixes;
      FirstContainingMember(prefixes[1..], addr);
      assert prefixes == [prefixes[0]] + prefixes[1..];
    }
  }

  ghost predicate Disjoint(prefixes: seq<Net>)
    requires ValidNets(prefixes, V4_BITS)
  {
    forall m, n, a: nat :: m in prefixes && n in prefixes && m != n && InNet(a, m, V4_BITS) ==> !InNet(a, n, V4_BITS)
  }

  /**
   Tracing a drawn address back gives exactly the bucket it was drawn from if and only if no
   other prefix of the table claims the address first. The division need not be exact.
   */
  lemma LocateInvertsDraw(perPrefix: nat, prefixes: seq<Net>, b: Bucket, h: nat)
    requires ValidNets(prefixes, V4_BITS) && ValidBucket(perPrefix, b)
    ensures Locate(perPrefix, prefixes, AddressOf(perPrefix, b, h)) == Some(b) <==>
            FirstContaining(prefixes, AddressOf(perPrefix, b, h)) == Some(b.net)
  {
    var a := AddressOf(perPrefix, b, h);
    FirstContainingMember(prefixes, a);
    if FirstContaining(prefixes, a) == Some(b.net) {
      AddressInsideBucket(perPrefix, b, h);
      SliceIndexInverts(b.index, BucketSize(perPrefix, b.net), BucketsFor(perPrefix, b.net), a - Base(perPrefix, b));
    }
  }

  /** With pairwise disjoint prefixes the round trip always holds. */
  lemma DisjointRoundTrip(perPrefix: nat, prefixes: seq<Net>, b: Bucket, h: nat)
    requires ValidNets(prefixes, V4_BITS) && Disjoint(prefixes)
    requires b.net in prefixes && ValidBucket(perPrefix, b)
    ensures Locate(perPrefix, prefixes, AddressOf(perPrefix, b, h)) == Some(b)
  {
    AddressInsideBucket(perPrefix, b, h);
    FirstContainingMember(prefixes, AddressOf(perPrefix, b, h));
    LocateInvertsDraw(perPrefix, prefixes, b, h);
  }

  /** Every located bucket is one the sampler enumerates. */
  lemma LocateValid(perPrefix: nat, prefixes: seq<Net>, addr: nat)
    requires perPrefix >= 1 && ValidNets(prefixes, V4_BITS)
    requires Locate(perPrefix, prefixes, addr).Some?
    ensures var b := Locate(perPrefix, prefixes, addr).value;
            b.net in prefixes && ValidBucket(perPrefix, b) && InNet(addr, b.net, V4_BITS)
  {
    FirstContainingMember(prefixes, addr);
  }
}
