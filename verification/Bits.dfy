/** Machine words and 128-bit blocks as bit sequences, least significant bit first. */
module Bits {

  type Bits = seq<bool>

  const BLOCK_BITS := 128

  /** A 128-bit block; bit 0 is the least significant bit of byte 0. */
  type Block = b: Bits | |b| == BLOCK_BITS witness seq(BLOCK_BITS, _ => false)

  /** An 8-bit byte. */
  type Byte = b: Bits | |b| == 8 witness seq(8, _ => false)

  /** Bit `i` of `p`, and false outside `p`: the coefficient of X^i. */
  predicate Coef(p: Bits, i: int) {
    0 <= i < |p| && p[i]
  }

  function Zeros(n: nat): (r: Bits)
    ensures |r| == n && forall i | 0 <= i < n :: !r[i]
  {
    seq(n, _ => false)
  }

  const ZERO: Block := Zeros(BLOCK_BITS)

  function Xor(a: Bits, b: Bits): (r: Bits)
    requires |a| == |b|
    ensures |r| == |a| && forall i | 0 <= i < |a| :: r[i] == (a[i] != b[i])
  {
    seq(|a|, i requires 0 <= i < |a| => a[i] != b[i])
  }

  function And(a: Bits, b: Bits): (r: Bits)
    requires |a| == |b|
    ensures |r| == |a| && forall i | 0 <= i < |a| :: r[i] == (a[i] && b[i])
  {
    seq(|a|, i requires 0 <= i < |a| => a[i] && b[i])
  }

  function Or(a: Bits, b: Bits): (r: Bits)
    requires |a| == |b|
    ensures |r| == |a| && forall i | 0 <= i < |a| :: r[i] == (a[i] || b[i])
  {
    seq(|a|, i requires 0 <= i < |a| => a[i] || b[i])
  }

  /** `c · a` for a single bit `c`. */
  function Scale(c: bool, a: Bits): (r: Bits)
    ensures |r| == |a| && forall i | 0 <= i < |a| :: r[i] == (c && a[i])
  {
    if c then a else Zeros(|a|)
  }

  /** Logical shift towards the most significant bit, within the width. */
  function Shl(a: Bits, k: nat): (r: Bits)
    ensures |r| == |a| && forall i | 0 <= i < |a| :: r[i] == Coef(a, i - k)
  {
    seq(|a|, i requires 0 <= i < |a| => Coef(a, i - k))
  }

  /** Logical shift towards the least significant bit. */
  function Shr(a: Bits, k: nat): (r: Bits)
    ensures |r| == |a| && forall i | 0 <= i < |a| :: r[i] == Coef(a, i + k)
  {
    seq(|a|, i requires 0 <= i < |a| => Coef(a, i + k))
  }

  function Reverse(a: Bits): (r: Bits)
    ensures |r| == |a| && forall i | 0 <= i < |a| :: r[i] == a[|a| - 1 - i]
  {
    seq(|a|, i requires 0 <= i < |a| => a[|a| - 1 - i])
  }

  function Pow2(n: nat): (r: nat)
    ensures r >= 1
  {
    if n == 0 then 1 else 2 * Pow2(n - 1)
  }

  /** `v · 2^n` */
  function Scaled(v: nat, n: nat): nat {
    if n == 0 then v else 2 * Scaled(v, n - 1)
  }

  lemma {:induction false} ScaledIsTimes(v: nat, n: nat)
    ensures Scaled(v, n) == Pow2(n) * v
  {
    if n > 0 {
      ScaledIsTimes(v, n - 1);
    }
  }

  lemma {:induction false} ScaledSum(v: nat, w: nat, n: nat)
    ensures Scaled(v + w, n) == Scaled(v, n) + Scaled(w, n)
  {
    if n > 0 {
      ScaledSum(v, w, n - 1);
    }
  }

  lemma {:induction false} ScaledZeroOne(n: nat)
    ensures Scaled(0, n) == 0 && Scaled(1, n) == Pow2(n)
  {
    if n > 0 {
      ScaledZeroOne(n - 1);
    }
  }

  lemma {:induction false} ScaledTwice(v: nat, m: nat, n: nat)
    ensures Scaled(Scaled(v, m), n) == Scaled(v, m + n)
  {
    if n > 0 {
      ScaledTwice(v, m, n - 1);
    }
  }

  /** The unsigned value of a word. */
  function Value(w: Bits): (r: nat) {
    if w == [] then 0 else (if w[0] then 1 else 0) + 2 * Value(w[1..])
  }

  /** The low `n` bits of `v`. */
  function FromNat(v: nat, n: nat): (r: Bits)
    ensures |r| == n
  {
    if n == 0 then [] else [v % 2 == 1] + FromNat(v / 2, n - 1)
  }

  lemma {:induction false} ValueBound(w: Bits)
    ensures Value(w) < Pow2(|w|)
  {
    if w != [] {
      ValueBound(w[1..]);
    }
  }

  lemma {:induction false} FromNatValue(w: Bits)
    ensures FromNat(Value(w), |w|) == w
  {
    if w != [] {
      FromNatValue(w[1..]);
    }
  }

  lemma MulMonotone(d: nat, a: int, b: int)
    requires a <= b
    ensures d * a <= d * b
  {
    assert d * (b - a) >= 0;
  }

  lemma DivModUnique(v: int, d: nat, q: int, r: nat)
    requires r < d && v == d * q + r
    ensures v / d == q && v % d == r
  {
    var q' := v / d;
    assert v == d * q' + v % d;
    if q' > q {
      MulMonotone(d, q + 1, q');
    } else if q' < q {
      MulMonotone(d, q' + 1, q);
    }
  }

  /** Adding an even number keeps the parity. */
  lemma AddEven(v: nat, half: nat)
    ensures (v + 2 * half) % 2 == v % 2
  {
    DivModUnique(v + 2 * half, 2, v / 2 + half, v % 2);
  }

  lemma {:induction false} FromNatQuotient(v: nat, n: nat) returns (q: nat)
    ensures v == Value(FromNat(v, n)) + Scaled(q, n)
  {
    if n == 0 {
      q := v;
    } else {
      q := FromNatQuotient(v / 2, n - 1);
      assert FromNat(v, n)[1..] == FromNat(v / 2, n - 1);
    }
  }

  lemma {:induction false} FromNatSmall(v: nat, n: nat)
    requires v < Pow2(n)
    ensures Value(FromNat(v, n)) == v
  {
    if n > 0 {
      FromNatSmall(v / 2, n - 1);
      assert FromNat(v, n)[1..] == FromNat(v / 2, n - 1);
    }
  }

  /** `FromNat` keeps exactly the residue modulo 2^n. */
  lemma ValueFromNat(v: nat, n: nat)
    ensures Value(FromNat(v, n)) == v % Pow2(n)
  {
    var q := FromNatQuotient(v, n);
    ScaledIsTimes(q, n);
    ValueBound(FromNat(v, n));
    DivModUnique(v, Pow2(n), q, Value(FromNat(v, n)));
  }

  /** Bit `m` of `lo + hi·2^m` with `lo < 2^m` is the parity of `hi`. */
  lemma {:induction false} FromNatBit(lo: nat, hi: nat, m: nat, n: nat)
    requires m < n && lo < Pow2(m)
    ensures FromNat(lo + Scaled(hi, m), n)[m] == (hi % 2 == 1)
  {
    if m > 0 {
      FromNatBit(lo / 2, hi, m - 1, n - 1);
    }
  }

  lemma {:induction false} ValueConcat(a: Bits, b: Bits)
    ensures Value(a + b) == Value(a) + Scaled(Value(b), |a|)
  {
    if a == [] {
      assert a + b == b;
    } else {
      assert (a + b)[1..] == a[1..] + b;
      ValueConcat(a[1..], b);
    }
  }

  /** Truncation undoes the addition of anything above the width. */
  lemma {:induction false} FromNatScaled(s: Bits, hi: nat)
    ensures FromNat(Value(s) + Scaled(hi, |s|), |s|) == s
  {
    if s != [] {
      FromNatScaled(s[1..], hi);
    }
  }

  /** Word addition modulo 2^|a|. */
  function AddWords(a: Bits, b: Bits): (r: Bits)
    ensures |r| == |a|
  {
    FromNat(Value(a) + Value(b), |a|)
  }

  lemma AddWordsValue(a: Bits, b: Bits)
    ensures Value(AddWords(a, b)) == (Value(a) + Value(b)) % Pow2(|a|)
  {
    ValueFromNat(Value(a) + Value(b), |a|);
  }

  /** `a - b + 2^|a|`, which is never negative. */
  function Difference(a: Bits, b: Bits): nat
    requires |a| == |b|
  {
    ValueBound(b);
    Value(a) - Value(b) + Pow2(|a|)
  }

  /** Word subtraction modulo 2^|a|. */
  function SubWords(a: Bits, b: Bits): (r: Bits)
    requires |a| == |b|
    ensures |r| == |a|
  {
    FromNat(Difference(a, b), |a|)
  }

  lemma ModShift(v: int, d: nat)
    requires d > 0
    ensures (v + d) % d == v % d
  {
    var q := v / d;
    assert v == d * q + v % d;
    assert d * (q + 1) == d * q + d;
    DivModUnique(v + d, d, q + 1, v % d);
  }

  lemma SubWordsValue(a: Bits, b: Bits)
    requires |a| == |b|
    ensures Value(SubWords(a, b)) == (Value(a) - Value(b)) % Pow2(|a|)
  {
    ValueFromNat(Difference(a, b), |a|);
    DifferenceModulo(Value(a) - Value(b), Pow2(|a|), Difference(a, b));
  }

  lemma DifferenceModulo(x: int, d: nat, v: int)
    requires d > 0 && v == x + d
    ensures v % d == x % d
  {
    ModShift(x, d);
  }

  // Sums of blocks.

  /** XOR of a sequence of blocks. */
  function XorSum(s: seq<Block>): Block {
    if s == [] then ZERO else Xor(XorSum(s[..|s| - 1]), s[|s| - 1])
  }

  lemma XorAssociates(a: Block, b: Block, c: Block)
    ensures Xor(a, Xor(b, c)) == Xor(Xor(a, b), c)
  {
    forall i | 0 <= i < 128 ensures Xor(a, Xor(b, c))[i] == Xor(Xor(a, b), c)[i] {
    }
  }

  lemma XorZero(a: Block)
    ensures Xor(a, ZERO) == a
  {
  }

  // Masks.

  /** Bitwise AND of two numbers. */
  function AndNat(a: nat, b: nat): (r: nat) {
    if a == 0 || b == 0 then 0 else 2 * AndNat(a / 2, b / 2) + if a % 2 == 1 && b % 2 == 1 then 1 else 0
  }

  function TrailingZeros(n: nat): nat
    requires n > 0
  {
    if n % 2 == 1 then 0 else 1 + TrailingZeros(n / 2)
  }

  predicate IsPowerOfTwo(n: nat) {
    n == 1 || (n > 1 && n % 2 == 0 && IsPowerOfTwo(n / 2))
  }

  lemma {:induction false} AndSelf(n: nat)
    ensures AndNat(n, n) == n
  {
    if n > 0 {
      AndSelf(n / 2);
    }
  }

  /** `n & (n - 1)` is zero exactly for powers of two. */
  lemma {:induction false} PowerOfTwoTest(n: nat)
    requires n > 0
    ensures AndNat(n, n - 1) == 0 <==> IsPowerOfTwo(n)
    ensures IsPowerOfTwo(n) ==> n == Pow2(TrailingZeros(n))
  {
    if n % 2 == 1 {
      AndSelf(n / 2);
      assert (n - 1) / 2 == n / 2;
    } else {
      PowerOfTwoTest(n / 2);
      assert (n - 1) / 2 == n / 2 - 1;
    }
  }

  lemma HalvedModulo(v: nat, p: nat)
    requires p > 0
    ensures v % (2 * p) == 2 * ((v / 2) % p) + v % 2
  {
    var h := v / 2;
    var q, m := h / p, h % p;
    assert h == p * q + m && v == 2 * h + v % 2;
    assert v == (2 * p) * q + (2 * m + v % 2);
    DivModUnique(v, 2 * p, q, 2 * m + v % 2);
  }

  /** Masking with `2^r - 1` reduces modulo `2^r`. */
  lemma {:induction false} MaskIsModulo(v: nat, r: nat)
    ensures AndNat(v, Pow2(r) - 1) == v % Pow2(r)
  {
    if r > 0 {
      MaskIsModulo(v / 2, r - 1);
      HalvedModulo(v, Pow2(r - 1));
      assert (Pow2(r) - 1) / 2 == Pow2(r - 1) - 1 && (Pow2(r) - 1) % 2 == 1;
    }
  }
}
