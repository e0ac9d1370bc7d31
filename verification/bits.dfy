/** Integer helpers of the radix-2 transform: powers of two (the
    Tools.Pow2/IsPowerOf2/Log2 helpers the transform calls) and the
    reversal of the low bits of an index. */
module Bits {

  function Pow2(k: nat): (r: nat)
    ensures r >= 1
  {
    if k == 0 then 1 else 2 * Pow2(k - 1)
  }

  /** Tools.IsPowerOf2: n is 1, 2, 4, 8, ... */
  predicate IsPowerOf2(n: int)
    decreases if n < 0 then 0 else n
  {
    n >= 1 && (n == 1 || (n % 2 == 0 && IsPowerOf2(n / 2)))
  }

  /** Tools.Log2 on a power of two: the exponent. */
  function Log2(n: int): (k: nat)
    requires IsPowerOf2(n)
    ensures Pow2(k) == n
    decreases n
  {
    if n == 1 then 0 else 1 + Log2(n / 2)
  }

  lemma {:induction false} Pow2IsPowerOf2(k: nat)
    ensures IsPowerOf2(Pow2(k))
    ensures Log2(Pow2(k)) == k
  {
    if k > 0 {
      Pow2IsPowerOf2(k - 1);
      assert Pow2(k) / 2 == Pow2(k - 1);
    }
  }

  /** Exponents add. */
  lemma {:induction false} Pow2Add(a: nat, b: nat)
    ensures Pow2(a + b) == Pow2(a) * Pow2(b)
    decreases a
  {
    if a > 0 {
      Pow2Add(a - 1, b);
      var x, y := Pow2(a - 1), Pow2(b);
      assert Pow2(a + b) == 2 * Pow2(a - 1 + b) == 2 * (x * y);
      assert Pow2(a) == 2 * x;
      assert 2 * (x * y) == (2 * x) * y;
    }
  }

  /** The powers the transform's configuration uses. */
  lemma Pow2Values()
    ensures Pow2(13) == 8192 && Pow2(14) == 16384
  {
    assert Pow2(7) == 2 * Pow2(6) == 128;
    Pow2Add(6, 7);
    Pow2Add(7, 7);
  }

  lemma Pow2Monotone(j: nat, k: nat)
    requires j <= k
    ensures Pow2(j) <= Pow2(k)
    ensures Pow2(k) % Pow2(j) == 0
  {
    var q := Pow2(k - j);
    Pow2Add(k - j, j);
    MultipleMod(q, Pow2(j));
    MulMonotone(1, q, Pow2(j));
  }

  lemma MultipleMod(q: int, d: int)
    requires d > 0
    ensures (q * d) % d == 0
  {
    var x := q * d;
    assert x == q * d + 0;
    DivModUnique(x, d, q, 0);
  }

  /** The quotient and remainder of a natural number are natural. */
  lemma DivBounds(x: nat, d: int)
    requires d > 0
    ensures 0 <= x / d && 0 <= x % d < d
  {
  }

  /** Euclidean division has a unique quotient and remainder. */
  lemma DivModUnique(x: int, d: int, q: int, r: int)
    requires d > 0 && 0 <= r < d && x == q * d + r
    ensures x / d == q && x % d == r
  {
    var q', r' := x / d, x % d;
    if q' > q {
      MulMonotone(q + 1, q', d);
    } else if q' < q {
      MulMonotone(q' + 1, q, d);
    }
  }

  /** Removing one divisor leaves the remainder unchanged. */
  lemma ModDown(x: int, d: int)
    requires d > 0
    ensures (x - d) % d == x % d
  {
    var q, r := x / d, x % d;
    MulMonotone(q - 1, q, d);
    assert x - d == (q - 1) * d + r;
    DivModUnique(x - d, d, q - 1, r);
  }

  lemma MulMonotone(a: int, b: int, d: int)
    requires a <= b && d > 0
    ensures a * d <= b * d
    ensures (a + 1) * d == a * d + d
  {
    assert b * d - a * d == (b - a) * d;
  }

  /** Bit t of x (the t-th binary digit, counting from 0 at the low end). */
  function Bit(x: nat, t: nat): nat
    ensures Bit(x, t) <= 1
  {
    if t == 0 then x % 2 else Bit(x / 2, t - 1)
  }

  /** The low b bits of i, reversed: bit 0 of i becomes bit b-1 of the result.
      This is what the inner loop of GetReversedBits computes for entry i. */
  function Rev(i: nat, b: nat): (r: nat)
  {
    if b == 0 then 0
    else (if i % 2 == 1 then Pow2(b - 1) else 0) + Rev(i / 2, b - 1)
  }

  /** The reversal of b bits fits in b bits. */
  lemma {:induction false} RevBound(i: nat, b: nat)
    ensures Rev(i, b) < Pow2(b)
  {
    if b > 0 {
      RevBound(i / 2, b - 1);
    }
  }

  /** Rev together with its range: the index a bit-reversal table sends i to. */
  function Mirror(i: nat, b: nat): (r: nat)
    ensures r < Pow2(b)
  {
    RevBound(i, b);
    Rev(i, b)
  }

  /** Every bit of Rev(i, b) is the mirrored bit of i. */
  lemma {:induction false} RevMirrorsBits(i: nat, b: nat, t: nat)
    requires t < b
    ensures Bit(Rev(i, b), t) == Bit(i, b - 1 - t)
  {
    var high := i % 2 == 1;
    var rest := Rev(i / 2, b - 1);
    RevBound(i / 2, b - 1);
    if t == b - 1 {
      TopBit(high, b - 1, rest);
      LowBitOfHalf(i, t);
    } else {
      LowBitsIgnoreTop(high, b - 1, rest, t);
      RevMirrorsBits(i / 2, b - 1, t);
      assert Bit(i / 2, b - 2 - t) == Bit(i, b - 1 - t);
    }
  }

  /** Bit t of x is bit 0 of x halved t times. */
  lemma {:induction false} LowBitOfHalf(x: nat, t: nat)
    ensures Bit(x, t) == Bit(Shifted(x, t), 0)
  {
    if t > 0 {
      LowBitOfHalf(x / 2, t - 1);
    }
  }

  function Shifted(x: nat, t: nat): nat {
    if t == 0 then x else Shifted(x / 2, t - 1)
  }

  /** Halving 2^k + low (k >= 1) halves both parts; the low bit is low's. */
  lemma HalfOfTop(high: bool, k: nat, low: nat)
    requires k >= 1
    ensures ((if high then Pow2(k) else 0) + low) % 2 == low % 2
    ensures ((if high then Pow2(k) else 0) + low) / 2 == (if high then Pow2(k - 1) else 0) + low / 2
  {
    var h := if high then Pow2(k - 1) else 0;
    var x := (if high then Pow2(k) else 0) + low;
    assert x == (h + low / 2) * 2 + low % 2;
    DivModUnique(x, 2, h + low / 2, low % 2);
  }

  /** Adding 2^k below which `low` fits sets exactly bit k. */
  lemma {:induction false} TopBit(high: bool, k: nat, low: nat)
    requires low < Pow2(k)
    ensures Bit((if high then Pow2(k) else 0) + low, k) == (if high then 1 else 0)
    ensures Bit(Shifted((if high then Pow2(k) else 0) + low, k), 0) == (if high then 1 else 0)
  {
    var x := (if high then Pow2(k) else 0) + low;
    LowBitOfHalf(x, k);
    ShiftedDrops(high, k, low);
  }

  lemma {:induction false} ShiftedDrops(high: bool, k: nat, low: nat)
    requires low < Pow2(k)
    ensures Shifted((if high then Pow2(k) else 0) + low, k) == (if high then 1 else 0)
  {
    if k > 0 {
      HalfOfTop(high, k, low);
      ShiftedDrops(high, k - 1, low / 2);
    }
  }

  /** Adding 2^k does not change the bits below k. */
  lemma {:induction false} LowBitsIgnoreTop(high: bool, k: nat, low: nat, t: nat)
    requires low < Pow2(k) && t < k
    ensures Bit((if high then Pow2(k) else 0) + low, t) == Bit(low, t)
  {
    HalfOfTop(high, k, low);
    if t > 0 {
      LowBitsIgnoreTop(high, k - 1, low / 2, t - 1);
    }
  }

  /** Reversal seen from the top bit: moving the top bit of x to the bottom. */
  lemma {:induction false} RevOfTop(high: bool, b: nat, low: nat)
    requires b >= 1 && low < Pow2(b - 1)
    ensures Rev((if high then Pow2(b - 1) else 0) + low, b)
         == 2 * Rev(low, b - 1) + (if high then 1 else 0)
  {
    if b >= 2 {
      assert low / 2 < Pow2(b - 2);
      RevOfTop(high, b - 1, low / 2);
      RevOfTopStep(high, b, low);
    } else {
      assert low == 0;
      RevUnfold((if high then Pow2(b - 1) else 0) + low, 1);
    }
  }

  /** The inductive step of RevOfTop, from its claim one bit shorter. */
  lemma RevOfTopStep(high: bool, b: nat, low: nat)
    requires b >= 2 && low < Pow2(b - 1)
    requires Rev((if high then Pow2(b - 2) else 0) + low / 2, b - 1)
          == 2 * Rev(low / 2, b - 2) + (if high then 1 else 0)
    ensures Rev((if high then Pow2(b - 1) else 0) + low, b)
         == 2 * Rev(low, b - 1) + (if high then 1 else 0)
  {
    var x := (if high then Pow2(b - 1) else 0) + low;
    HalfOfTop(high, b - 1, low);
    RevUnfold(x, b);
    RevUnfold(low, b - 1);
    assert Pow2(b - 1) == 2 * Pow2(b - 2);
    RevStep(Rev(x, b), Rev(low, b - 1), Rev(x / 2, b - 1), Rev(low / 2, b - 2), Pow2(b - 2), low % 2 == 1, if high then 1 else 0);
  }

  /** The arithmetic step of RevOfTop, over plain integers. */
  lemma RevStep(rx: int, rl: int, a: int, c: int, p: int, odd: bool, h: int)
    requires rx == (if odd then 2 * p else 0) + a
    requires rl == (if odd then p else 0) + c
    requires a == 2 * c + h
    ensures rx == 2 * rl + h
  {
  }

  /** One step of the definition of Rev. */
  lemma RevUnfold(i: nat, b: nat)
    requires b >= 1
    ensures Rev(i, b) == (if i % 2 == 1 then Pow2(b - 1) else 0) + Rev(i / 2, b - 1)
  {
  }

  /** Zero reversed is zero. */
  lemma {:induction false} RevZero(b: nat)
    ensures Rev(0, b) == 0
  {
    if b > 0 {
      RevZero(b - 1);
    }
  }

  /** Bit reversal is an involution on [0, 2^b). */
  lemma {:induction false} RevInvolution(i: nat, b: nat)
    requires i < Pow2(b)
    ensures Rev(Rev(i, b), b) == i
  {
    if b > 0 {
      var half, low := i / 2, i % 2;
      assert i == 2 * half + low;
      assert half < Pow2(b - 1);
      RevInvolution(half, b - 1);
      var r := Rev(half, b - 1);
      RevBound(half, b - 1);
      assert Rev(i, b) == (if low == 1 then Pow2(b - 1) else 0) + r;
      RevOfTop(low == 1, b, r);
    }
  }

  /** Reversal is injective on [0, 2^b), so it permutes that range. */
  lemma RevInjective(i: nat, j: nat, b: nat)
    requires i < Pow2(b) && j < Pow2(b) && Rev(i, b) == Rev(j, b)
    ensures i == j
  {
    RevInvolution(i, b);
    RevInvolution(j, b);
  }

  /** One step of the GetReversedBits inner loop: shifting the accumulator left
      and or-ing in the low bit of the remaining input. */
  lemma ReverseStep(acc: nat, rest: nat, k: nat)
    requires k >= 1
    ensures acc * Pow2(k) + Rev(rest, k) == (2 * acc + rest % 2) * Pow2(k - 1) + Rev(rest / 2, k - 1)
  {
    var p := Pow2(k - 1);
    assert Pow2(k) == 2 * p;
    assert acc * (2 * p) == (2 * acc) * p;
    assert (2 * acc + rest % 2) * p == (2 * acc) * p + (rest % 2) * p;
  }
}
