/** TTL rewriting and the canonical answer fingerprint. */
module Messages {
  import opened Seqs
  import opened Sorting
  import Bits

  type Byte = b: nat | b < 256
  type U16 = n: nat | n < 0x1_0000
  type U64 = h: nat | h < 0x1_0000_0000_0000_0000

  type Bytes = seq<Byte>

  /** A resource record; name and rdata are the bytes of their presentation form. */
  datatype Record = Record(name: Bytes, rtype: U16, class_: U16, data: Bytes, ttl: nat)

  // ----- TTLs

  function SaturatingSub(a: nat, b: nat): nat {
    if a >= b then a - b else 0
  }

  function Min(a: int, b: int): int {
    if a <= b then a else b
  }

  datatype TtlOp = Age(elapsed: nat) | Cap(limit: nat)

  function ApplyTtl(op: TtlOp): nat -> nat {
    match op
    case Age(e) => (t: nat) => SaturatingSub(t, e)
    case Cap(c) => (t: nat) => if t <= c then t else c
  }

  function ApplyAll(t: nat, ops: seq<TtlOp>): nat {
    if ops == [] then t else ApplyAll(ApplyTtl(ops[0])(t), ops[1..])
  }

  function TotalAge(ops: seq<TtlOp>): nat {
    if ops == [] then 0 else (if ops[0].Age? then ops[0].elapsed else 0) + TotalAge(ops[1..])
  }

  /** The tightest cap, each reduced by the ageing that follows it. */
  function CapBound(ops: seq<TtlOp>): Option<int> {
    if ops == [] then None
    else
      var rest := CapBound(ops[1..]);
      if ops[0].Age? then rest
      else
        var mine := ops[0].limit - TotalAge(ops[1..]);
        if rest.None? then Some(mine) else Some(Min(mine, rest.value))
  }

  /**
   Any mix of ageing and capping has a closed form: the original TTL less all ageing, or the
   tightest aged cap if that is smaller, and never below zero.
   */
  lemma {:induction false} TtlClosedForm(t: nat, ops: seq<TtlOp>)
    ensures var left := t - TotalAge(ops);
            var bound := if CapBound(ops).Some? then Min(left, CapBound(ops).value) else left;
            ApplyAll(t, ops) == if bound >= 0 then bound else 0
  {
    if ops != [] {
      TtlClosedForm(ApplyTtl(ops[0])(t), ops[1..]);
    }
  }

  /** A rewritten TTL never exceeds the original less the total ageing. */
  lemma TtlNeverExtended(t: nat, ops: seq<TtlOp>)
    ensures ApplyAll(t, ops) <= SaturatingSub(t, TotalAge(ops))
  {
    TtlClosedForm(t, ops);
  }

  /** Two ageings in a row are one ageing by the sum. */
  lemma AgeingComposes(t: nat, a: nat, b: nat, ops: seq<TtlOp>)
    ensures ApplyAll(t, [Age(a), Age(b)] + ops) == ApplyAll(t, [Age(a + b)] + ops)
  {
    var x, y := [Age(a), Age(b)] + ops, [Age(a + b)] + ops;
    assert x[1..][1..] == ops && y[1..] == ops;
    assert ApplyAll(t, x) == ApplyAll(ApplyTtl(x[1])(ApplyTtl(x[0])(t)), ops);
  }

  function MapTtl(s: seq<Record>, f: nat -> nat): (r: seq<Record>)
    ensures |r| == |s| && forall i :: 0 <= i < |s| ==> r[i] == s[i].(ttl := f(s[i].ttl))
  {
    if s == [] then [] else [s[0].(ttl := f(s[0].ttl))] + MapTtl(s[1..], f)
  }

  class Message {
    const answers: array<Record>
    const authorities: array<Record>
    const additionals: array<Record>

    /** The three sections are separate vectors. */
    predicate Separate() {
      answers != authorities && answers != additionals && authorities != additionals
    }

    static method MapSection(a: array<Record>, f: nat -> nat)
      modifies a
      ensures a[..] == MapTtl(old(a[..]), f)
    {
      for i := 0 to a.Length
        invariant forall k :: 0 <= k < i ==> a[k] == old(a[k]).(ttl := f(old(a[k]).ttl))
        invariant forall k :: i <= k < a.Length ==> a[k] == old(a[k])
      {
        a[i] := a[i].(ttl := f(a[i].ttl));
      }
      assert a[..] == MapTtl(old(a[..]), f);
    }

    /** Rewrite all TTLs of the message in place, section by section. */
    method MapTtls(f: nat -> nat)
      requires Separate()
      modifies answers, authorities, additionals
      ensures answers[..] == MapTtl(old(answers[..]), f)
      ensures authorities[..] == MapTtl(old(authorities[..]), f)
      ensures additionals[..] == MapTtl(old(additionals[..]), f)
    {
      MapSection(answers, f);
      MapSection(authorities, f);
      MapSection(additionals, f);
    }

    /** `cap_ttls` and `age_ttls`: the fingerprint of the answers does not notice. */
    method Rewrite(op: TtlOp)
      requires Separate()
      modifies answers, authorities, additionals
      ensures answers[..] == MapTtl(old(answers[..]), ApplyTtl(op))
      ensures authorities[..] == MapTtl(old(authorities[..]), ApplyTtl(op))
      ensures additionals[..] == MapTtl(old(additionals[..]), ApplyTtl(op))
      ensures Fingerprint(answers[..]) == Fingerprint(old(answers[..]))
    {
      ghost var before := answers[..];
      MapTtls(ApplyTtl(op));
      FingerprintIgnoresTtl(before, ApplyTtl(op));
    }
  }

  // ----- canonical form

  function LowerByte(b: Byte): Byte {
    if 65 <= b <= 90 then b + 32 else b
  }

  function Lower(s: Bytes): (r: Bytes)
    ensures |r| == |s| && forall i :: 0 <= i < |s| ==> r[i] == LowerByte(s[i])
  {
    if s == [] then [] else [LowerByte(s[0])] + Lower(s[1..])
  }

  /** What the fingerprint looks at: everything but the TTL, in lower case. */
  datatype Canon = Canon(name: Bytes, rtype: U16, class_: U16, data: Bytes)

  function CanonOf(r: Record): Canon {
    Canon(Lower(r.name), r.rtype, r.class_, Lower(r.data))
  }

  function BigEndian(n: U16): Bytes {
    [n / 256, n % 256]
  }

  function Encode(c: Canon): Bytes {
    c.name + ([0] + (BigEndian(c.rtype) + (BigEndian(c.class_) + ([0] + c.data))))
  }

  function Map<T, U>(f: T -> U, s: seq<T>): seq<U> {
    if s == [] then [] else Map(f, s[..|s| - 1]) + [f(s[|s| - 1])]
  }

  function CanonFn(): Record -> Canon {
    (r: Record) => CanonOf(r)
  }

  function EncodeFn(): Canon -> Bytes {
    (c: Canon) => Encode(c)
  }

  function ByteLess(): (Byte, Byte) -> bool {
    (a: Byte, b: Byte) => a < b
  }

  /** The order `sort_unstable` uses on byte vectors. */
  function BytesLeq(): (Bytes, Bytes) -> bool {
    LexLeq(ByteLess())
  }

  const FNV_OFFSET: U64 := 0xcbf2_9ce4_8422_2325

  /** Wrapping multiplication by the FNV prime. */
  function Multiplied(x: nat): U64 {
    x * 0x0000_0100_0000_01b3 % 0x1_0000_0000_0000_0000
  }

  function HashByte(h: U64, b: Byte): U64 {
    Multiplied(Bits.Xor(h, b, 64))
  }

  function HashBytes(h: U64, p: Bytes): U64 {
    if p == [] then h else HashByte(HashBytes(h, p[..|p| - 1]), p[|p| - 1])
  }

  function HashParts(parts: seq<Bytes>): U64 {
    if parts == [] then FNV_OFFSET
    else HashByte(HashBytes(HashParts(parts[..|parts| - 1]), parts[|parts| - 1]), 0xff)
  }

  function Canons(answers: seq<Record>): seq<Canon> {
    Map(CanonFn(), answers)
  }

  /** The sorted list of encoded records that is hashed. */
  function SortedParts(answers: seq<Record>): seq<Bytes> {
    Sort(Map(EncodeFn(), Canons(answers)), BytesLeq())
  }

  function Fingerprint(answers: seq<Record>): U64 {
    HashParts(SortedParts(answers))
  }

  /** `answer_fingerprint`: encode, sort, fold the running hash. */
  method AnswerFingerprint(answers: seq<Record>) returns (hash: U64)
    ensures hash == Fingerprint(answers)
  {
    var parts: seq<Bytes> := [];
    for i := 0 to |answers|
      invariant parts == Map(EncodeFn(), Canons(answers[..i]))
    {
      assert answers[..i + 1][..i] == answers[..i];
      var cs := Canons(answers[..i]) + [CanonOf(answers[i])];
      assert cs[..|cs| - 1] == Canons(answers[..i]);
      parts := parts + [Encode(CanonOf(answers[i]))];
    }
    assert answers[..|answers|] == answers;
    parts := Sort(parts, BytesLeq());
    hash := Fold(parts);
  }

  /** The hashing loops. */
  method Fold(parts: seq<Bytes>) returns (hash: U64)
    ensures hash == HashParts(parts)
  {
    hide HashByte;
    hash := FNV_OFFSET;
    for i := 0 to |parts|
      invariant hash == HashParts(parts[..i])
    {
      assert parts[..i + 1][..i] == parts[..i];
      ghost var start := hash;
      var p := parts[i];
      for j := 0 to |p|
        invariant hash == HashBytes(start, p[..j])
      {
        assert p[..j + 1][..j] == p[..j];
        hash := HashByte(hash, p[j]);
      }
      assert p[..|p|] == p;
      hash := HashByte(hash, 0xff);
    }
    assert parts[..|parts|] == parts;
  }

  lemma BytesOrder()
    ensures TotalPreorder(BytesLeq())
    ensures forall x, y :: BytesLeq()(x, y) && BytesLeq()(y, x) ==> x == y
  {
    assert StrictTotal(ByteLess());
    LexIsTotalOrder(ByteLess());
  }

  // ----- mapping and multisets

  lemma MapSnoc<T, U>(f: T -> U, s: seq<T>, x: T)
    ensures Map(f, s + [x]) == Map(f, s) + [f(x)]
  {
    assert (s + [x])[..|s|] == s;
  }

  lemma {:induction false} MapConcat<T, U>(f: T -> U, s: seq<T>, t: seq<T>)
    ensures Map(f, s + t) == Map(f, s) + Map(f, t)
  {
    if t == [] {
      assert s + t == s;
    } else {
      var n := |t| - 1;
      assert (s + t)[..|s + t| - 1] == s + t[..n];
      MapConcat(f, s, t[..n]);
    }
  }

  function RemoveAt<T>(s: seq<T>, k: nat): seq<T>
    requires k < |s|
  {
    s[..k] + s[k + 1..]
  }

  lemma RemoveAtMultiset<T>(s: seq<T>, k: nat)
    requires k < |s|
    ensures multiset(RemoveAt(s, k)) == multiset(s) - multiset{s[k]}
  {
    assert s == s[..k] + ([s[k]] + s[k + 1..]);
  }

  lemma MapRemoveAt<T, U>(f: T -> U, s: seq<T>, k: nat)
    requires k < |s|
    ensures multiset(Map(f, s)) == multiset(Map(f, RemoveAt(s, k))) + multiset{f(s[k])}
  {
    hide Map;
    var head, tail := s[..k], s[k + 1..];
    assert s == (head + [s[k]]) + tail && RemoveAt(s, k) == head + tail;
    MapConcat(f, head + [s[k]], tail);
    MapConcat(f, head, tail);
    MapSnoc(f, head, s[k]);
  }

  /** Equal multisets have equal images. */
  lemma {:induction false} MapMultiset<T, U>(f: T -> U, s: seq<T>, t: seq<T>)
    requires multiset(s) == multiset(t)
    ensures multiset(Map(f, s)) == multiset(Map(f, t))
    decreases |s|
  {
    assert |s| == |multiset(s)| == |multiset(t)| == |t|;
    if s != [] {
      hide Map;
      assert s[0] in multiset(t);
      var k :| 0 <= k < |t| && t[k] == s[0];
      RemoveAtMultiset(s, 0);
      RemoveAtMultiset(t, k);
      MapMultiset(f, RemoveAt(s, 0), RemoveAt(t, k));
      MapRemoveAt(f, s, 0);
      MapRemoveAt(f, t, k);
    }
  }

  /** An injective map preserves every multiplicity. */
  lemma {:induction false} MapCount<T, U>(f: T -> U, s: seq<T>, x: T)
    requires forall y :: y in s && f(y) == f(x) ==> y == x
    ensures multiset(Map(f, s))[f(x)] == multiset(s)[x]
  {
    if s != [] {
      var n := |s| - 1;
      assert s[n] in s && s == s[..n] + [s[n]];
      MapCount(f, s[..n], x);
    }
  }

  // ----- encoding is unambiguous

  predicate NulFree(c: Canon) {
    0 !in c.name
  }

  lemma FirstNul(a: Bytes, x: Bytes, l: Bytes)
    requires 0 !in a && l == a + ([0] + x)
    ensures |a| < |l| && l[|a|] == 0 && forall i :: 0 <= i < |a| ==> l[i] != 0
    ensures a == l[..|a|] && x == l[|a| + 1..]
  {
    assert forall i :: 0 <= i < |a| ==> l[i] == a[i];
  }

  lemma SplitAtNul(a: Bytes, x: Bytes, b: Bytes, y: Bytes)
    requires 0 !in a && 0 !in b && a + ([0] + x) == b + ([0] + y)
    ensures a == b && x == y
  {
    var l := a + ([0] + x);
    FirstNul(a, x, l);
    FirstNul(b, y, l);
    assert |a| == |b|;
  }

  /** The high byte comes first. */
  lemma BigEndianValue(n: U16)
    ensures var high: int, low: int := BigEndian(n)[0], BigEndian(n)[1]; high * 256 + low == n
  {
  }

  lemma BigEndianInjective(m: U16, n: U16)
    requires BigEndian(m) == BigEndian(n)
    ensures m == n
  {
    assert BigEndian(m)[0] == BigEndian(n)[0] && BigEndian(m)[1] == BigEndian(n)[1];
  }

  lemma EncodeInjective(c: Canon, d: Canon)
    requires NulFree(c) && NulFree(d) && Encode(c) == Encode(d)
    ensures c == d
  {
    hide BigEndian;
    BigEndianLength(c.rtype, c.class_);
    BigEndianLength(d.rtype, d.class_);
    var x := BigEndian(c.rtype) + (BigEndian(c.class_) + ([0] + c.data));
    var y := BigEndian(d.rtype) + (BigEndian(d.class_) + ([0] + d.data));
    SplitAtNul(c.name, x, d.name, y);
    assert BigEndian(c.rtype) == x[..2] == y[..2] == BigEndian(d.rtype);
    assert BigEndian(c.class_) == x[2..4] == y[2..4] == BigEndian(d.class_);
    assert c.data == x[5..] == y[5..] == d.data;
    BigEndianInjective(c.rtype, d.rtype);
    BigEndianInjective(c.class_, d.class_);
  }

  lemma BigEndianLength(m: U16, n: U16)
    ensures |BigEndian(m)| == 2 && |BigEndian(n)| == 2
  {
  }

  // ----- the fingerprint is canonical

  lemma SameCanonsSameParts(a: seq<Record>, b: seq<Record>)
    requires multiset(Canons(a)) == multiset(Canons(b))
    ensures SortedParts(a) == SortedParts(b)
  {
    var x, y := Map(EncodeFn(), Canons(a)), Map(EncodeFn(), Canons(b));
    MapMultiset(EncodeFn(), Canons(a), Canons(b));
    BytesOrder();
    SortSorts(x, BytesLeq());
    SortSorts(y, BytesLeq());
    SortMultiset(x, BytesLeq());
    SortMultiset(y, BytesLeq());
    SortedUnique(Sort(x, BytesLeq()), Sort(y, BytesLeq()), BytesLeq());
  }

  /**
   The hashed form is a complete canonical form: two answer sections give the same sorted parts
   exactly when they hold the same records up to order, ASCII case and TTL. (Presentation-form
   names never contain a NUL byte.)
   */
  lemma PartsAreCanonical(a: seq<Record>, b: seq<Record>)
    requires forall c :: c in Canons(a) || c in Canons(b) ==> NulFree(c)
    ensures SortedParts(a) == SortedParts(b) <==> multiset(Canons(a)) == multiset(Canons(b))
  {
    if multiset(Canons(a)) == multiset(Canons(b)) {
      SameCanonsSameParts(a, b);
    }
    if SortedParts(a) == SortedParts(b) {
      SamePartsSameCanons(Canons(a), Canons(b));
    }
  }

  lemma SamePartsSameCanons(s: seq<Canon>, t: seq<Canon>)
    requires forall c :: c in s || c in t ==> NulFree(c)
    requires Sort(Map(EncodeFn(), s), BytesLeq()) == Sort(Map(EncodeFn(), t), BytesLeq())
    ensures multiset(s) == multiset(t)
  {
    var x, y := Map(EncodeFn(), s), Map(EncodeFn(), t);
    SortMultiset(x, BytesLeq());
    SortMultiset(y, BytesLeq());
    assert multiset(x) == multiset(y);
    forall c | c in s || c in t
      ensures multiset(s)[c] == multiset(t)[c]
    {
      forall d | (d in s || d in t) && EncodeFn()(d) == EncodeFn()(c)
        ensures d == c
      {
        EncodeInjective(d, c);
      }
      MapCount(EncodeFn(), s, c);
      MapCount(EncodeFn(), t, c);
    }
    forall c
      ensures multiset(s)[c] == multiset(t)[c]
    {
      if c !in s && c !in t {
        assert c !in multiset(s) && c !in multiset(t);
      }
    }
  }

  /** Reordering the answers does not change the fingerprint. */
  lemma FingerprintIgnoresOrder(a: seq<Record>, b: seq<Record>)
    requires multiset(a) == multiset(b)
    ensures Fingerprint(a) == Fingerprint(b)
  {
    MapMultiset(CanonFn(), a, b);
    SameCanonsSameParts(a, b);
  }

  /** The same byte, or the two cases of one ASCII letter. */
  predicate FoldByte(a: Byte, b: Byte) {
    a == b || (65 <= a <= 90 && b == a + 32) || (65 <= b <= 90 && a == b + 32)
  }

  predicate Folds(s: Bytes, t: Bytes) {
    |s| == |t| && forall i :: 0 <= i < |s| ==> FoldByte(s[i], t[i])
  }

  lemma LowerByteMeaning(a: Byte, b: Byte)
    ensures LowerByte(a) == LowerByte(b) <==> FoldByte(a, b)
  {
  }

  /** Lower-casing identifies exactly the texts that differ in the case of ASCII letters. */
  lemma LowerMeaning(s: Bytes, t: Bytes)
    ensures Lower(s) == Lower(t) <==> Folds(s, t)
  {
    hide LowerByte, FoldByte;
    forall i | 0 <= i < |s| && i < |t|
      ensures LowerByte(s[i]) == LowerByte(t[i]) <==> FoldByte(s[i], t[i])
    {
      LowerByteMeaning(s[i], t[i]);
    }
    if Lower(s) == Lower(t) {
      assert |s| == |t|;
      assert forall i :: 0 <= i < |s| ==> Lower(s)[i] == Lower(t)[i];
    }
    if Folds(s, t) {
      assert Lower(s) == Lower(t);
    }
  }

  /** Two records that differ only in ASCII letter case and TTL. */
  predicate SameButCase(r: Record, s: Record) {
    Folds(r.name, s.name) && r.rtype == s.rtype && r.class_ == s.class_ && Folds(r.data, s.data)
  }

  /** The canonical form of a record forgets letter case and TTL, and nothing else. */
  lemma CanonMeaning(r: Record, s: Record)
    ensures CanonOf(r) == CanonOf(s) <==> SameButCase(r, s)
  {
    hide Lower, Folds;
    LowerMeaning(r.name, s.name);
    LowerMeaning(r.data, s.data);
  }

  lemma {:induction false} CanonsPointwise(a: seq<Record>, b: seq<Record>)
    requires |a| == |b| && forall i :: 0 <= i < |a| ==> SameButCase(a[i], b[i])
    ensures Canons(a) == Canons(b)
  {
    if a != [] {
      hide CanonOf, SameButCase;
      var n := |a| - 1;
      assert SameButCase(a[n], b[n]);
      CanonMeaning(a[n], b[n]);
      CanonsPointwise(a[..n], b[..n]);
    }
  }

  /** Changing letter case in names and rdata does not change the fingerprint. */
  lemma FingerprintIgnoresCase(a: seq<Record>, b: seq<Record>)
    requires |a| == |b| && forall i :: 0 <= i < |a| ==> SameButCase(a[i], b[i])
    ensures Fingerprint(a) == Fingerprint(b)
  {
    CanonsPointwise(a, b);
  }

  lemma FingerprintIgnoresTtl(a: seq<Record>, f: nat -> nat)
    ensures Fingerprint(MapTtl(a, f)) == Fingerprint(a)
  {
    forall i | 0 <= i < |a|
      ensures SameButCase(MapTtl(a, f)[i], a[i])
    {
    }
    CanonsPointwise(MapTtl(a, f), a);
  }

  function Rewritten(a: seq<Record>, ops: seq<TtlOp>): seq<Record>
    decreases |ops|
  {
    if ops == [] then a else Rewritten(MapTtl(a, ApplyTtl(ops[0])), ops[1..])
  }

  /** In a rewritten section every record has the TTL of the closed form and nothing else changed. */
  lemma {:induction false} RewrittenRecords(a: seq<Record>, ops: seq<TtlOp>)
    ensures |Rewritten(a, ops)| == |a|
    ensures forall i :: 0 <= i < |a| ==> Rewritten(a, ops)[i] == a[i].(ttl := ApplyAll(a[i].ttl, ops))
    decreases |ops|
  {
    if ops != [] {
      RewrittenRecords(MapTtl(a, ApplyTtl(ops[0])), ops[1..]);
    }
  }

  /** Any sequence of ageing and capping leaves the fingerprint alone. */
  lemma {:induction false} FingerprintIgnoresRewrites(a: seq<Record>, ops: seq<TtlOp>)
    ensures Fingerprint(Rewritten(a, ops)) == Fingerprint(a)
    decreases |ops|
  {
    if ops != [] {
      FingerprintIgnoresTtl(a, ApplyTtl(ops[0]));
      FingerprintIgnoresRewrites(MapTtl(a, ApplyTtl(ops[0])), ops[1..]);
    }
  }

  // ----- the hash sees every byte

  /** Multiplying by the FNV prime loses nothing: it has an inverse modulo 2^64. */
  lemma PrimeIsInvertible(x: U64)
    ensures Multiplied(x) * 0xce96_5057_aff6_957b % 0x1_0000_0000_0000_0000 == x
  {
    var m, y := 0x1_0000_0000_0000_0000, Multiplied(x);
    var q := x * 0x0000_0100_0000_01b3 / m;
    assert y == x * 0x0000_0100_0000_01b3 - m * q;
    var z, r := y * 0xce96_5057_aff6_957b % m, y * 0xce96_5057_aff6_957b / m;
    assert z == y * 0xce96_5057_aff6_957b - m * r;
  }

  lemma MultipliedInjective(x: U64, y: U64)
    requires Multiplied(x) == Multiplied(y)
    ensures x == y
  {
    hide Multiplied;
    PrimeIsInvertible(x);
    PrimeIsInvertible(y);
  }

  lemma XorIsWord(h: U64, b: Byte)
    ensures Bits.Xor(h, b, 64) < 0x1_0000_0000_0000_0000
    ensures Bits.Xor(Bits.Xor(h, b, 64), b, 64) == h
    ensures Bits.Xor(Bits.Xor(h, b, 64), h, 64) == b
  {
    hide Bits.Xor, Bits.Pow2;
    Bits.SixtyFourBits();
    Bits.XorBound(h, b, 64);
    Bits.XorTwice(h, b, 64);
    Bits.XorTwice(b, h, 64);
    Bits.XorCommutes(h, b, 64);
  }

  lemma HashByteInjective(h: U64, k: U64, b: Byte)
    requires HashByte(h, b) == HashByte(k, b)
    ensures h == k
  {
    hide Multiplied, Bits.Xor;
    XorIsWord(h, b);
    XorIsWord(k, b);
    MultipliedInjective(Bits.Xor(h, b, 64), Bits.Xor(k, b, 64));
  }

  lemma HashByteTells(h: U64, b: Byte, c: Byte)
    requires HashByte(h, b) == HashByte(h, c)
    ensures b == c
  {
    hide Multiplied, Bits.Xor;
    XorIsWord(h, b);
    XorIsWord(h, c);
    MultipliedInjective(Bits.Xor(h, b, 64), Bits.Xor(h, c, 64));
  }

  lemma {:induction false} HashBytesInjective(h: U64, k: U64, p: Bytes)
    requires HashBytes(h, p) == HashBytes(k, p)
    ensures h == k
  {
    hide HashByte;
    if p != [] {
      var n := |p| - 1;
      HashByteInjective(HashBytes(h, p[..n]), HashBytes(k, p[..n]), p[n]);
      HashBytesInjective(h, k, p[..n]);
    }
  }

  lemma {:induction false} ByteShows(h: U64, p: Bytes, i: nat, c: Byte)
    requires i < |p| && HashBytes(h, p) == HashBytes(h, p[i := c])
    ensures c == p[i]
  {
    hide HashByte;
    var n := |p| - 1;
    var q := p[i := c];
    if i == n {
      assert q[..n] == p[..n];
      HashByteTells(HashBytes(h, p[..n]), p[n], c);
    } else {
      assert q[..n] == p[..n][i := c] && q[n] == p[n];
      HashByteInjective(HashBytes(h, p[..n]), HashBytes(h, q[..n]), p[n]);
      ByteShows(h, p[..n], i, c);
    }
  }

  function WithByte(p: Bytes, i: nat, c: Byte): Bytes
    requires i < |p|
  {
    p[i := c]
  }

  /** Changing one byte of one part changes the hash, wherever it stands and whatever surrounds it. */
  lemma {:induction false} OneByteChangesHash(parts: seq<Bytes>, j: nat, i: nat, c: Byte)
    requires j < |parts| && i < |parts[j]| && HashParts(parts) == HashParts(parts[j := WithByte(parts[j], i, c)])
    ensures c == parts[j][i]
  {
    hide HashByte;
    var n := |parts| - 1;
    var changed := parts[j := WithByte(parts[j], i, c)];
    var before, after := HashParts(parts[..n]), HashParts(changed[..n]);
    HashByteInjective(HashBytes(before, parts[n]), HashBytes(after, changed[n]), 0xff);
    if j == n {
      assert changed[..n] == parts[..n];
      ByteShows(before, parts[n], i, c);
    } else {
      assert changed[..n] == parts[..n][j := WithByte(parts[..n][j], i, c)] && changed[n] == parts[n];
      HashBytesInjective(before, after, parts[n]);
      OneByteChangesHash(parts[..n], j, i, c);
    }
  }

  lemma {:induction false} HashBytesConcat(h: U64, a: Bytes, b: Bytes)
    ensures HashBytes(h, a + b) == HashBytes(HashBytes(h, a), b)
  {
    hide HashByte;
    if b == [] {
      assert a + b == a;
    } else {
      var n := |b| - 1;
      assert (a + b)[..|a| + n] == a + b[..n];
      HashBytesConcat(h, a, b[..n]);
    }
  }

  lemma HashPartsSnoc(parts: seq<Bytes>, p: Bytes)
    ensures HashParts(parts + [p]) == HashByte(HashBytes(HashParts(parts), p), 0xff)
  {
    hide HashByte;
    assert (parts + [p])[..|parts|] == parts;
  }

  /** Where one record ends shows: two records hash like their joined text only if the end mark maps the hash to itself. */
  lemma RecordEndsShow(parts: seq<Bytes>, a: Bytes, b: Bytes)
    ensures var x := HashBytes(HashParts(parts), a);
            HashParts(parts + [a] + [b]) == HashParts(parts + [a + b]) <==> HashByte(x, 0xff) == x
  {
    hide HashByte;
    var x := HashBytes(HashParts(parts), a);
    HashPartsSnoc(parts, a);
    HashPartsSnoc(parts + [a], b);
    HashPartsSnoc(parts, a + b);
    HashBytesConcat(HashParts(parts), a, b);
    var l, r := HashBytes(HashByte(x, 0xff), b), HashBytes(x, b);
    if HashByte(l, 0xff) == HashByte(r, 0xff) {
      HashByteInjective(l, r, 0xff);
      HashBytesInjective(HashByte(x, 0xff), x, b);
    }
  }

  /** The fingerprint of no answers is the FNV offset basis. */
  lemma EmptyFingerprint()
    ensures Fingerprint([]) == 0xcbf2_9ce4_8422_2325
  {
    hide HashByte;
  }

  lemma SinglePart(r: Record)
    ensures SortedParts([r]) == [Encode(CanonOf(r))]
  {
    hide Encode, CanonOf;
    assert [] + [r] == [r];
    MapSnoc(CanonFn(), [], r);
    var cs := [CanonOf(r)];
    assert Canons([r]) == cs;
    assert [] + [cs[0]] == cs;
    MapSnoc(EncodeFn(), [], cs[0]);
    var ps := [Encode(CanonOf(r))];
    assert Map(EncodeFn(), cs) == ps;
    assert ps[1..] == [] && Sort<Bytes>([], BytesLeq()) == [];
    assert Sort(ps, BytesLeq()) == Insert(ps[0], [], BytesLeq()) == ps;
  }

  /** One changed rdata byte is one changed byte of the encoding. */
  lemma EncodedChange(r: Record, i: nat, c: Byte)
    requires i < |r.data|
    ensures var p, at := Encode(CanonOf(r)), |r.name| + 6 + i;
            at < |p| && p[at] == LowerByte(r.data[i]) && Encode(CanonOf(r.(data := r.data[i := c]))) == WithByte(p, at, LowerByte(c))
  {
    hide Encode, LowerByte;
    LowerUpdate(r.data, i, c);
    DataAt(CanonOf(r), i, LowerByte(c));
    assert CanonOf(r.(data := r.data[i := c])) == CanonOf(r).(data := CanonOf(r).data[i := LowerByte(c)]);
  }

  /** A single answer whose rdata differs in one byte, beyond letter case, has another fingerprint. */
  lemma RdataByteShows(r: Record, i: nat, c: Byte)
    requires i < |r.data| && Fingerprint([r]) == Fingerprint([r.(data := r.data[i := c])])
    ensures FoldByte(c, r.data[i])
  {
    hide Encode, CanonOf, HashByte, SortedParts, HashBytes, HashParts, LowerByte, FoldByte, WithByte;
    var s := r.(data := r.data[i := c]);
    SinglePart(r);
    SinglePart(s);
    EncodedChange(r, i, c);
    var p, at := Encode(CanonOf(r)), |r.name| + 6 + i;
    assert [p][0 := WithByte(p, at, LowerByte(c))] == [Encode(CanonOf(s))];
    OneByteChangesHash([p], 0, at, LowerByte(c));
    LowerByteMeaning(c, r.data[i]);
  }

  lemma LowerUpdate(s: Bytes, i: nat, c: Byte)
    requires i < |s|
    ensures Lower(s[i := c]) == Lower(s)[i := LowerByte(c)] && Lower(s)[i] == LowerByte(s[i])
  {
    hide LowerByte;
  }

  lemma DataAt(d: Canon, i: nat, c: Byte)
    requires i < |d.data|
    ensures var at := |d.name| + 6 + i;
            at < |Encode(d)| && Encode(d)[at] == d.data[i] && Encode(d.(data := d.data[i := c])) == Encode(d)[at := c]
  {
    hide BigEndian;
    BigEndianLength(d.rtype, d.class_);
    var head := d.name + [0] + BigEndian(d.rtype) + BigEndian(d.class_) + [0];
    assert Encode(d) == head + d.data;
    assert Encode(d.(data := d.data[i := c])) == head + d.data[i := c];
  }
}
