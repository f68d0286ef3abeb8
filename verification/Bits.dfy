/** Bitwise AND and XOR on `w`-bit unsigned integers, and the masks the components test with. */
module Bits {

  function Pow2(n: nat): (r: nat)
    ensures r > 0
  {
    if n == 0 then 1 else 2 * Pow2(n - 1)
  }

  /** `a & b` over the low `w` bits. */
  function And(a: nat, b: nat, w: nat): nat {
    if w == 0 then 0
    else (if a % 2 == 1 && b % 2 == 1 then 1 else 0) + 2 * And(a / 2, b / 2, w - 1)
  }

  /** `a ^ b` over the low `w` bits. */
  function Xor(a: nat, b: nat, w: nat): nat {
    if w == 0 then 0
    else (if a % 2 == b % 2 then 0 else 1) + 2 * Xor(a / 2, b / 2, w - 1)
  }

  /** The low `k` bits of `a`. */
  function LowBits(a: nat, k: nat): nat {
    if k == 0 then 0 else a % 2 + 2 * LowBits(a / 2, k - 1)
  }

  /** `w` bits: ones above `k` zeros. */
  function HighMask(k: nat, w: nat): nat
    requires k <= w
  {
    if w == 0 then 0
    else if k == 0 then 2 * HighMask(0, w - 1) + 1
    else 2 * HighMask(k - 1, w - 1)
  }

  lemma {:induction false} Pow2Monotone(k: nat, w: nat)
    requires k <= w
    ensures Pow2(k) <= Pow2(w)
    decreases w
  {
    if k < w {
      Pow2Monotone(k, w - 1);
    }
  }

  lemma {:induction false} LowBitsBound(a: nat, k: nat)
    ensures LowBits(a, k) <= a && LowBits(a, k) < Pow2(k)
    ensures a < Pow2(k) ==> LowBits(a, k) == a
  {
    if k > 0 {
      LowBitsBound(a / 2, k - 1);
    }
  }

  /** Masking with `2^k - 1` keeps the low `k` bits. */
  lemma {:induction false} AndLowMask(a: nat, k: nat, w: nat)
    requires k <= w
    ensures And(a, Pow2(k) - 1, w) == LowBits(a, k)
    decreases w
  {
    if w > 0 {
      if k == 0 {
        AndLowMask(a / 2, 0, w - 1);
      } else {
        var m := Pow2(k - 1) - 1;
        assert Pow2(k) - 1 == 2 * m + 1;
        assert (2 * m + 1) % 2 == 1 && (2 * m + 1) / 2 == m;
        AndLowMask(a / 2, k - 1, w - 1);
      }
    }
  }

  /** A network mask clears the low `k` bits. */
  lemma {:induction false} AndHighMask(a: nat, k: nat, w: nat)
    requires k <= w
    ensures And(a, HighMask(k, w), w) == LowBits(a, w) - LowBits(a, k)
    decreases w
  {
    if w > 0 {
      AndHighMask(a / 2, if k == 0 then 0 else k - 1, w - 1);
    }
  }

  /** Clearing the low bits is constant on one aligned block and different on any other. */
  lemma {:induction false} SameBlock(a: nat, b: nat, k: nat)
    ensures a - LowBits(a, k) == b - LowBits(b, k) <==>
            b - LowBits(b, k) <= a < b - LowBits(b, k) + Pow2(k)
  {
    if k > 0 {
      SameBlock(a / 2, b / 2, k - 1);
    }
  }

  /** An aligned block that starts inside the address space ends inside it. */
  lemma {:induction false} BlockFits(a: nat, k: nat, w: nat)
    requires k <= w && a < Pow2(w)
    ensures a - LowBits(a, k) + Pow2(k) <= Pow2(w)
    decreases k
  {
    if k > 0 {
      BlockFits(a / 2, k - 1, w - 1);
    }
  }

  lemma DivModUnique(a: int, d: int, q: int, r: int)
    requires 0 <= r < d && a == q * d + r
    ensures a / d == q && a % d == r
  {
    var q', r' := a / d, a % d;
    assert a == q' * d + r';
    var k := q - q';
    assert k * d == r' - r;
    assert k >= 1 ==> k * d >= d;
    assert k <= -1 ==> k * d <= -d;
  }

  /** XOR with the same value twice gives the first value back. */
  lemma {:induction false} XorTwice(a: nat, b: nat, w: nat)
    requires a < Pow2(w)
    ensures Xor(Xor(a, b, w), b, w) == a
  {
    if w > 0 {
      var x := Xor(a / 2, b / 2, w - 1);
      XorTwice(a / 2, b / 2, w - 1);
      assert Xor(a, b, w) / 2 == x;
    }
  }

  lemma {:induction false} XorBound(a: nat, b: nat, w: nat)
    ensures Xor(a, b, w) < Pow2(w)
  {
    if w > 0 {
      XorBound(a / 2, b / 2, w - 1);
    }
  }

  lemma {:induction false} XorCommutes(a: nat, b: nat, w: nat)
    ensures Xor(a, b, w) == Xor(b, a, w)
  {
    if w > 0 {
      XorCommutes(a / 2, b / 2, w - 1);
    }
  }

  lemma {:induction false} Pow2Sum(a: nat, b: nat)
    ensures Pow2(a + b) == Pow2(a) * Pow2(b)
  {
    if a > 0 {
      Pow2Sum(a - 1, b);
    }
  }

  lemma SixteenBits()
    ensures Pow2(16) == 0x1_0000
  {
    assert Pow2(8) == 256;
    Pow2Sum(8, 8);
  }

  lemma SixtyFourBits()
    ensures Pow2(64) == 0x1_0000_0000_0000_0000
  {
    SixteenBits();
    Pow2Sum(16, 16);
    Pow2Sum(32, 32);
  }
}
