/** GF(2)[X]: the carry-less product of two bit sequences, coefficient by coefficient. */
module Polynomials {
  import opened Bits

  /** The coefficient of X^s in `a · b`, by Horner's rule on `a`. */
  predicate ProductCoef(a: Bits, b: Bits, s: int) {
    a != [] && (a[0] && Coef(b, s)) != ProductCoef(a[1..], b, s - 1)
  }

  /** The full carry-less product, with room for every coefficient. */
  function Product(a: Bits, b: Bits): (r: Bits)
    ensures |r| == |a| + |b|
  {
    seq(|a| + |b|, s => ProductCoef(a, b, s))
  }

  lemma {:induction false} ProductDegree(a: Bits, b: Bits, s: int)
    requires s < 0 || s >= |a| + |b| - 1
    ensures !ProductCoef(a, b, s)
  {
    if a != [] {
      ProductDegree(a[1..], b, s - 1);
    }
  }

  lemma ProductAt(a: Bits, b: Bits, s: int)
    ensures Coef(Product(a, b), s) == ProductCoef(a, b, s)
  {
    if s < 0 || s >= |a| + |b| {
      ProductDegree(a, b, s);
    }
  }

  lemma {:induction false} ProductLeftXor(a: Bits, a': Bits, b: Bits, s: int)
    requires |a| == |a'|
    ensures ProductCoef(Xor(a, a'), b, s) == (ProductCoef(a, b, s) != ProductCoef(a', b, s))
  {
    if a != [] {
      assert Xor(a, a')[1..] == Xor(a[1..], a'[1..]);
      ProductLeftXor(a[1..], a'[1..], b, s - 1);
    }
  }

  lemma {:induction false} ProductRightXor(a: Bits, b: Bits, b': Bits, s: int)
    requires |b| == |b'|
    ensures ProductCoef(a, Xor(b, b'), s) == (ProductCoef(a, b, s) != ProductCoef(a, b', s))
  {
    if a != [] {
      ProductRightXor(a[1..], b, b', s - 1);
    }
  }

  /** `(lo + X^|lo|·hi) · b == lo·b + X^|lo|·hi·b`. */
  lemma {:induction false} ProductLeftConcat(lo: Bits, hi: Bits, b: Bits, s: int)
    ensures ProductCoef(lo + hi, b, s) == (ProductCoef(lo, b, s) != ProductCoef(hi, b, s - |lo|))
  {
    if lo == [] {
      assert lo + hi == hi;
    } else {
      assert (lo + hi)[1..] == lo[1..] + hi;
      ProductLeftConcat(lo[1..], hi, b, s - 1);
    }
  }

  lemma {:induction false} ProductRightConcat(a: Bits, lo: Bits, hi: Bits, s: int)
    ensures ProductCoef(a, lo + hi, s) == (ProductCoef(a, lo, s) != ProductCoef(a, hi, s - |lo|))
  {
    if a != [] {
      ProductRightConcat(a[1..], lo, hi, s - 1);
    }
  }

  lemma {:induction false} ProductRightBit(a: Bits, c: bool, s: int)
    ensures ProductCoef(a, [c], s) == (c && Coef(a, s))
  {
    if a != [] {
      ProductRightBit(a[1..], c, s - 1);
    }
  }

  lemma {:induction false} ProductCommutes(a: Bits, b: Bits, s: int)
    ensures ProductCoef(a, b, s) == ProductCoef(b, a, s)
  {
    if a == [] {
      ProductRightEmpty(b, s);
    } else {
      assert a == [a[0]] + a[1..];
      ProductRightConcat(b, [a[0]], a[1..], s);
      ProductRightBit(b, a[0], s);
      ProductCommutes(a[1..], b, s - 1);
    }
  }

  lemma {:induction false} ProductRightEmpty(a: Bits, s: int)
    ensures !ProductCoef(a, [], s)
  {
    if a != [] {
      ProductRightEmpty(a[1..], s - 1);
    }
  }

  /** Reversing both factors reverses the product: `rev(a)·rev(b)` read backwards is `a·b`. */
  lemma {:induction false} ProductReverse(a: Bits, b: Bits, s: int)
    ensures ProductCoef(Reverse(a), Reverse(b), |a| + |b| - 2 - s) == ProductCoef(a, b, s)
    decreases |a|
  {
    if a != [] {
      var t := |a| + |b| - 2 - s;
      var tail := Reverse(a[1..]);
      assert Reverse(a) == tail + [a[0]];
      ProductLeftConcat(tail, [a[0]], Reverse(b), t);
      ProductReverse(a[1..], b, s - 1);
      assert ProductCoef([a[0]], Reverse(b), t - |tail|) == (a[0] && Coef(Reverse(b), t - |tail|));
    }
  }

  // The same product with integer coefficients: how many pairs of set bits meet at each position.

  function PairCount(a: Bits, b: Bits, s: int): nat {
    if a == [] then 0
    else (if a[0] && Coef(b, s) then 1 else 0) + PairCount(a[1..], b, s - 1)
  }

  lemma {:induction false} PairCountParity(a: Bits, b: Bits, s: int)
    ensures (PairCount(a, b, s) % 2 == 1) == ProductCoef(a, b, s)
  {
    if a != [] {
      PairCountParity(a[1..], b, s - 1);
    }
  }

  /** The value of the low `n` bits of `b`, summed from the top. */
  function LowValue(b: Bits, n: nat): nat {
    if n == 0 then 0 else LowValue(b, n - 1) + (if Coef(b, n - 1) then Pow2(n - 1) else 0)
  }

  /** The sum of `PairCount(a, b, s)·2^s` over `s < n`. */
  function PairSum(a: Bits, b: Bits, n: nat): nat {
    if n == 0 then 0 else PairSum(a, b, n - 1) + Scaled(PairCount(a, b, n - 1), n - 1)
  }

  lemma {:induction false} LowValueTail(b: Bits, n: nat)
    requires b != []
    ensures LowValue(b, n + 1) == (if b[0] then 1 else 0) + 2 * LowValue(b[1..], n)
  {
    if n > 0 {
      LowValueTail(b, n - 1);
      assert Coef(b, n) == Coef(b[1..], n - 1);
    } else {
      assert LowValue(b, 1) == LowValue(b, 0) + if Coef(b, 0) then Pow2(0) else 0;
    }
  }

  lemma {:induction false} LowValueIsValue(b: Bits, n: nat)
    requires n >= |b|
    ensures LowValue(b, n) == Value(b)
  {
    if b == [] {
      if n > 0 {
        LowValueIsValue(b, n - 1);
      }
    } else {
      LowValueTail(b, n - 1);
      LowValueIsValue(b[1..], n - 1);
    }
  }

  lemma {:induction false} PairCountNegative(a: Bits, b: Bits, s: int)
    requires s < 0
    ensures PairCount(a, b, s) == 0
  {
    if a != [] {
      PairCountNegative(a[1..], b, s - 1);
    }
  }

  lemma {:induction false} PairSumStep(a: Bits, b: Bits, n: nat)
    requires a != []
    ensures PairSum(a, b, n + 1) == (if a[0] then LowValue(b, n + 1) else 0) + 2 * PairSum(a[1..], b, n)
  {
    var tail := PairCount(a[1..], b, n - 1);
    ScaledSum(if a[0] && Coef(b, n) then 1 else 0, tail, n);
    ScaledZeroOne(n);
    if n == 0 {
      PairCountNegative(a[1..], b, -1);
      assert PairSum(a, b, 1) == PairSum(a, b, 0) + Scaled(PairCount(a, b, 0), 0);
      assert LowValue(b, 1) == LowValue(b, 0) + if Coef(b, 0) then Pow2(0) else 0;
    } else {
      PairSumStep(a, b, n - 1);
    }
  }

  lemma {:induction false} PairSumEmpty(b: Bits, n: nat)
    ensures PairSum([], b, n) == 0
  {
    if n > 0 {
      PairSumEmpty(b, n - 1);
    }
  }

  /** The integer product is the sum of the pair counts at their positions. */
  lemma {:induction false} PairSumIsProduct(a: Bits, b: Bits, n: nat)
    requires n >= |a| + |b|
    ensures PairSum(a, b, n) == Value(a) * Value(b)
  {
    if a == [] {
      PairSumEmpty(b, n);
    } else {
      PairSumStep(a, b, n - 1);
      LowValueIsValue(b, n);
      PairSumIsProduct(a[1..], b, n - 1);
      HornerTimes(if a[0] then 1 else 0, Value(a[1..]), Value(b));
    }
  }

  lemma HornerTimes(c: nat, v: nat, w: nat)
    ensures (c + 2 * v) * w == c * w + 2 * (v * w)
  {
  }
}
