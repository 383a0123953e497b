/** GF(2^128) as GF(2)[X] modulo X^128 + X^7 + X^2 + X + 1. */
module Gf128 {
  import opened Bits
  import opened Polynomials
  import opened CarrylessMul

  /** Nonzero coefficients of X^7 + X^2 + X + 1. */
  predicate Tap(i: int) {
    i == 0 || i == 1 || i == 2 || i == 7
  }

  /** The reduction polynomial, with its leading coefficient. */
  const MODULUS: Bits := [true, true, true] + Zeros(4) + [true] + Zeros(120) + [true]

  const ONE: Block := [true] + Zeros(127)

  /** Multiplication by X in the quotient ring. */
  function XTime(b: Block): (r: Block)
    ensures forall i | 0 <= i < 128 :: r[i] == (Coef(b, i - 1) != (b[127] && Tap(i)))
  {
    seq(128, i requires 0 <= i < 128 => Coef(b, i - 1) != (b[127] && Tap(i)))
  }

  /** `p(X) · b` in the quotient ring, by Horner's rule. */
  function Eval(p: Bits, b: Block): Block {
    if p == [] then ZERO else Xor(Scale(p[0], b), XTime(Eval(p[1..], b)))
  }

  /** The residue of a polynomial of any degree. */
  function Residue(p: Bits): Block {
    Eval(p, ONE)
  }

  /** Multiplication in GF(2^128). */
  function Mul(a: Block, b: Block): Block {
    Eval(a, b)
  }

  // `Eval` is linear in each argument.

  lemma XTimeXor(a: Block, b: Block)
    ensures XTime(Xor(a, b)) == Xor(XTime(a), XTime(b))
  {
    forall i | 0 <= i < 128 ensures XTime(Xor(a, b))[i] == Xor(XTime(a), XTime(b))[i] {
      assert Coef(Xor(a, b), i - 1) == (Coef(a, i - 1) != Coef(b, i - 1));
    }
  }

  lemma XTimeZero()
    ensures XTime(ZERO) == ZERO
  {
  }

  lemma {:induction false} EvalXor(p: Bits, a: Block, b: Block)
    ensures Eval(p, Xor(a, b)) == Xor(Eval(p, a), Eval(p, b))
  {
    if p == [] {
      assert Xor(ZERO, ZERO) == ZERO;
    } else {
      var p' := p[1..];
      EvalXor(p', a, b);
      XTimeXor(Eval(p', a), Eval(p', b));
      ScaledShuffle(p[0], a, b, XTime(Eval(p', a)), XTime(Eval(p', b)));
    }
  }

  lemma ScaledShuffle(c: bool, a: Block, b: Block, u: Block, v: Block)
    ensures Xor(Scale(c, Xor(a, b)), Xor(u, v)) == Xor(Xor(Scale(c, a), u), Xor(Scale(c, b), v))
  {
    forall i | 0 <= i < 128
      ensures Xor(Scale(c, Xor(a, b)), Xor(u, v))[i] == Xor(Xor(Scale(c, a), u), Xor(Scale(c, b), v))[i]
    {
    }
  }

  lemma {:induction false} EvalZero(p: Bits)
    ensures Eval(p, ZERO) == ZERO
  {
    if p != [] {
      EvalZero(p[1..]);
      XTimeZero();
      assert Xor(Scale(p[0], ZERO), ZERO) == ZERO;
    }
  }

  lemma EvalScale(p: Bits, c: bool, b: Block)
    ensures Eval(p, Scale(c, b)) == Scale(c, Eval(p, b))
  {
    if !c {
      EvalZero(p);
    }
  }

  lemma {:induction false} EvalXTime(p: Bits, b: Block)
    ensures Eval(p, XTime(b)) == XTime(Eval(p, b))
  {
    if p == [] {
      XTimeZero();
    } else {
      var u := XTime(Eval(p[1..], b));
      EvalXTime(p[1..], b);
      XTimeXor(Scale(p[0], b), u);
      if !p[0] {
        XTimeZero();
      }
    }
  }

  lemma {:induction false} EvalCommutes(p: Bits, q: Bits, b: Block)
    ensures Eval(p, Eval(q, b)) == Eval(q, Eval(p, b))
  {
    if p == [] {
      EvalZero(q);
    } else {
      EvalCommutes(p[1..], q, b);
      EvalXTime(q, Eval(p[1..], b));
      EvalScale(q, p[0], b);
      EvalXor(q, Scale(p[0], b), XTime(Eval(p[1..], b)));
    }
  }

  lemma {:induction false} EvalLeftXor(p: Bits, q: Bits, b: Block)
    requires |p| == |q|
    ensures Eval(Xor(p, q), b) == Xor(Eval(p, b), Eval(q, b))
  {
    if p == [] {
      assert Xor(ZERO, ZERO) == ZERO;
    } else {
      assert Xor(p, q)[1..] == Xor(p[1..], q[1..]);
      EvalLeftXor(p[1..], q[1..], b);
      var u, v := Eval(p[1..], b), Eval(q[1..], b);
      XTimeXor(u, v);
      HeadShuffle(p[0], q[0], b, XTime(u), XTime(v));
    }
  }

  lemma HeadShuffle(c: bool, d: bool, b: Block, u: Block, v: Block)
    ensures Xor(Scale(c != d, b), Xor(u, v)) == Xor(Xor(Scale(c, b), u), Xor(Scale(d, b), v))
  {
    forall i | 0 <= i < 128
      ensures Xor(Scale(c != d, b), Xor(u, v))[i] == Xor(Xor(Scale(c, b), u), Xor(Scale(d, b), v))[i]
    {
    }
  }

  lemma {:induction false} EvalZeros(n: nat, b: Block)
    ensures Eval(Zeros(n), b) == ZERO
  {
    if n > 0 {
      assert Zeros(n)[1..] == Zeros(n - 1);
      EvalZeros(n - 1, b);
      XTimeZero();
      EvalHead(Zeros(n), b, ZERO);
      ScaleFalse(b);
    }
  }

  lemma ScaleFalse(b: Block)
    ensures Xor(Scale(false, b), ZERO) == ZERO
  {
  }

  lemma EvalHead(p: Bits, b: Block, tail: Block)
    requires p != [] && Eval(p[1..], b) == tail
    ensures Eval(p, b) == Xor(Scale(p[0], b), XTime(tail))
  {
  }

  lemma {:induction false} EvalPad(p: Bits, n: nat, b: Block)
    ensures Eval(p + Zeros(n), b) == Eval(p, b)
  {
    if p == [] {
      assert p + Zeros(n) == Zeros(n);
      EvalZeros(n, b);
    } else {
      var padded := p + Zeros(n);
      assert padded[1..] == p[1..] + Zeros(n);
      EvalPad(p[1..], n, b);
      EvalHead(padded, b, Eval(p[1..], b));
      EvalHead(p, b, Eval(p[1..], b));
    }
  }

  lemma OneStep(p: Bits, t: Block)
    requires 0 < |p| <= 128 && t == p[1..] + Zeros(129 - |p|)
    ensures Xor(Scale(p[0], ONE), XTime(t)) == p + Zeros(128 - |p|)
  {
    forall i | 0 <= i < 128 ensures Xor(Scale(p[0], ONE), XTime(t))[i] == (p + Zeros(128 - |p|))[i] {
      assert Coef(t, i - 1) == (i > 0 && Coef(p, i));
    }
  }

  /** A polynomial of degree below 128 is its own residue. */
  lemma {:induction false} EvalOne(p: Bits)
    requires |p| <= 128
    ensures Eval(p, ONE) == p + Zeros(128 - |p|)
  {
    if p != [] {
      EvalOne(p[1..]);
      var t := p[1..] + Zeros(129 - |p|);
      OneStep(p, t);
      EvalHead(p, ONE, t);
    }
  }

  lemma BlockResidue(r: Block)
    ensures Residue(r) == r
  {
    EvalOne(r);
    assert r + Zeros(0) == r;
  }

  // Field laws.

  lemma MulOne(a: Block)
    ensures Mul(a, ONE) == a && Mul(ONE, a) == a
  {
    BlockResidue(a);
    MulCommutes(a, ONE);
  }

  lemma MulCommutes(a: Block, b: Block)
    ensures Mul(a, b) == Mul(b, a)
  {
    BlockResidue(a);
    BlockResidue(b);
    EvalCommutes(a, b, ONE);
  }

  lemma MulAssociates(a: Block, b: Block, c: Block)
    ensures Mul(Mul(a, b), c) == Mul(a, Mul(b, c))
  {
    MulCommutes(Mul(a, b), c);
    EvalCommutes(c, a, b);
    MulCommutes(c, b);
  }

  lemma MulDistributes(a: Block, b: Block, c: Block)
    ensures Mul(a, Xor(b, c)) == Xor(Mul(a, b), Mul(a, c))
    ensures Mul(Xor(b, c), a) == Xor(Mul(b, a), Mul(c, a))
  {
    EvalXor(a, b, c);
    EvalLeftXor(b, c, a);
  }

  /** `a` has an inverse. */
  ghost predicate Invertible(a: Block) {
    exists i: Block :: Mul(a, i) == ONE
  }

  /** An invertible element is not a zero divisor. */
  lemma InvertibleCancels(a: Block, b: Block)
    requires Invertible(a)
    ensures Mul(a, b) == ZERO <==> b == ZERO
  {
    var i: Block :| Mul(a, i) == ONE;
    EvalZero(a);
    EvalZero(i);
    MulOne(b);
    MulCommutes(a, i);
    MulAssociates(i, a, b);
  }

  // The residue of a product is the product of the residues.

  /** The product splits into the first coefficient's part and X times the product of the rest. */
  lemma ProductHead(a: Bits, b: Bits, head: Bits, tail: Bits)
    requires a != [] && head == Scale(a[0], b) + Zeros(|a|) && tail == [false] + Product(a[1..], b)
    ensures Product(a, b) == Xor(head, tail)
  {
    forall s | 0 <= s < |a| + |b| ensures Product(a, b)[s] == Xor(head, tail)[s] {
      if s == 0 {
        ProductDegree(a[1..], b, -1);
      }
    }
  }

  lemma {:induction false} EvalProduct(a: Bits, b: Bits, c: Block)
    ensures Eval(Product(a, b), c) == Eval(a, Eval(b, c))
  {
    if a == [] {
      assert Product(a, b) == [] + Zeros(|b|);
      EvalPad([], |b|, c);
    } else {
      var head := Scale(a[0], b) + Zeros(|a|);
      var tail := [false] + Product(a[1..], b);
      ProductHead(a, b, head, tail);
      EvalLeftXor(head, tail, c);
      EvalPad(Scale(a[0], b), |a|, c);
      EvalLeftScale(a[0], b, c);
      assert tail[1..] == Product(a[1..], b);
      var u := XTime(Eval(tail[1..], c));
      assert Xor(Scale(false, c), u) == u;
      EvalProduct(a[1..], b, c);
    }
  }

  lemma EvalLeftScale(e: bool, p: Bits, c: Block)
    ensures Eval(Scale(e, p), c) == Scale(e, Eval(p, c))
  {
    if !e {
      assert Zeros(|p|) == [] + Zeros(|p|);
      EvalPad([], |p|, c);
    }
  }

  lemma ResidueOfProduct(a: Block, b: Block)
    ensures Residue(Product(a, b)) == Mul(a, b)
  {
    EvalProduct(a, b, ONE);
    BlockResidue(b);
  }

  /** Division with remainder: `p == q·MODULUS + Residue(p)`. */
  lemma {:induction false} ResidueQuotient(p: Bits) returns (q: Bits)
    ensures forall s :: Coef(p, s) == (ProductCoef(q, MODULUS, s) != Coef(Residue(p), s))
  {
    if p == [] {
      q := [];
    } else {
      var q' := ResidueQuotient(p[1..]);
      var r' := Residue(p[1..]);
      q := [r'[127]] + q';
      assert q[1..] == q';
      forall s ensures Coef(p, s) == (ProductCoef(q, MODULUS, s) != Coef(Residue(p), s)) {
        assert Coef(p[1..], s - 1) == (ProductCoef(q', MODULUS, s - 1) != Coef(r', s - 1));
        assert Coef(MODULUS, s) == (Tap(s) || s == 128);
        assert 0 <= s < 128 ==> Residue(p)[s] == ((p[0] && s == 0) != XTime(r')[s]);
        if s <= 0 {
          ProductDegree(q', MODULUS, s - 1);
        }
      }
    }
  }

  /** A multiple of the modulus has residue zero. */
  lemma MultipleVanishes(q: Bits)
    ensures Residue(Product(q, MODULUS)) == ZERO
  {
    EvalProduct(q, MODULUS, ONE);
    ModulusVanishes();
    EvalZero(q);
  }

  /** Polynomials with the same coefficients, padded to the same length. */
  lemma PaddedSum(p: Bits, a: Bits, b: Bits, n: nat)
    requires |p| <= n && |a| <= n && |b| <= n && forall s :: Coef(p, s) == (Coef(a, s) != Coef(b, s))
    ensures p + Zeros(n - |p|) == Xor(a + Zeros(n - |a|), b + Zeros(n - |b|))
  {
    var pp, aa, bb := p + Zeros(n - |p|), a + Zeros(n - |a|), b + Zeros(n - |b|);
    forall s | 0 <= s < n ensures pp[s] == Xor(aa, bb)[s] {
      assert Coef(p, s) == pp[s] && Coef(a, s) == aa[s] && Coef(b, s) == bb[s];
    }
  }

  lemma ResiduePadded(p: Bits, n: nat, p': Bits)
    requires |p| <= n && p' == p + Zeros(n - |p|)
    ensures Residue(p') == Residue(p) && |p'| == n
  {
    EvalPad(p, n - |p|, ONE);
  }

  lemma ResidueSum(p: Bits, a: Bits, b: Bits)
    requires forall s :: Coef(p, s) == (Coef(a, s) != Coef(b, s))
    ensures Residue(p) == Xor(Residue(a), Residue(b))
  {
    var n := |p| + |a| + |b|;
    var p', a', b' := p + Zeros(n - |p|), a + Zeros(n - |a|), b + Zeros(n - |b|);
    PaddedSum(p, a, b, n);
    ResiduePadded(p, n, p');
    ResiduePadded(a, n, a');
    ResiduePadded(b, n, b');
    EvalLeftXor(a', b', ONE);
  }

  /** The remainder is unique, so the residue is determined by divisibility alone. */
  lemma ResidueUnique(p: Bits, q: Bits, r: Block)
    requires forall s :: Coef(p, s) == (ProductCoef(q, MODULUS, s) != Coef(r, s))
    ensures Residue(p) == r
  {
    var qm := Product(q, MODULUS);
    forall s ensures Coef(p, s) == (Coef(qm, s) != Coef(r, s)) {
      ProductAt(q, MODULUS, s);
    }
    ResidueSum(p, qm, r);
    MultipleVanishes(q);
    BlockResidue(r);
    assert Xor(ZERO, r) == r;
  }

  /** X^7 + X^2 + X + 1, the residue of X^128. */
  const TAPS: Block := seq(128, i => Tap(i))

  lemma ModulusVanishes()
    ensures Residue(MODULUS) == ZERO
  {
    assert MODULUS == Xor(TAPS + Zeros(1), Zeros(128) + [true]);
    EvalLeftXor(TAPS + Zeros(1), Zeros(128) + [true], ONE);
    EvalPad(TAPS, 1, ONE);
    BlockResidue(TAPS);
    TopPower();
    assert Xor(TAPS, TAPS) == ZERO;
  }

  lemma TopPower()
    ensures Residue(Zeros(128) + [true]) == TAPS
  {
    var p := Zeros(128) + [true];
    assert p[1..] == Zeros(127) + [true];
    EvalOne(p[1..]);
    var t := p[1..] + Zeros(0);
    assert t == p[1..];
    assert XTime(t) == TAPS;
    assert Xor(Scale(false, ONE), TAPS) == TAPS;
  }

  // The word-level reduction.

  /** The high half with the bits that would leave it a second time folded back in. */
  function Folded(hi: Block): Block {
    var x2, x3 := hi[..64], hi[64..];
    Xor(Xor(Xor(x2, Shr(x3, 63)), Shr(x3, 62)), Shr(x3, 57)) + x3
  }

  /** `w · (X^7 + X^2 + X + 1)`, truncated. */
  function Spread(w: Block): Block {
    Xor(Xor(Xor(w, Shl(w, 1)), Shl(w, 2)), Shl(w, 7))
  }

  /** `reduce_gcm`: the low 128 bits come first, the high 128 bits second. */
  function ReduceGcm(lo: Block, hi: Block): Block {
    Xor(lo, Spread(Folded(hi)))
  }

  function XPower(b: Block, k: nat): Block {
    if k == 0 then b else XTime(XPower(b, k - 1))
  }

  /** The `k` bits shifted out of the top by a multiplication by X^k. */
  predicate Spill(b: Block, k: nat, j: int) {
    0 <= j < k <= 128 && b[128 - k + j]
  }

  /** XOR of four bits. */
  predicate Xor4(a: bool, b: bool, c: bool, d: bool) {
    (a != b) != (c != d)
  }

  lemma Xor4Sum(a: bool, b: bool, c: bool, d: bool, a': bool, b': bool, c': bool, d': bool)
    ensures Xor4(a != a', b != b', c != c', d != d') == (Xor4(a, b, c, d) != Xor4(a', b', c', d'))
  {
  }

  /** The spilled bits times X^7 + X^2 + X + 1. */
  predicate SpillTaps(b: Block, k: nat, i: int) {
    Xor4(Spill(b, k, i), Spill(b, k, i - 1), Spill(b, k, i - 2), Spill(b, k, i - 7))
  }

  /** One more multiplication by X spills one more bit. */
  lemma XTimeStep(b: Block, k: nat, i: nat, x: Block)
    requires 0 < k <= 7 && i < 128 && x[127] == (Coef(b, 128 - k) != SpillTaps(b, k - 1, 127))
    requires i > 0 ==> x[i - 1] == (Coef(b, i - k) != SpillTaps(b, k - 1, i - 1))
    ensures XTime(x)[i] == (Coef(b, i - k) != SpillTaps(b, k, i))
  {
  }

  lemma {:induction false} XPowerBit(b: Block, k: nat, i: nat)
    requires k <= 7 && i < 128
    ensures XPower(b, k)[i] == (Coef(b, i - k) != SpillTaps(b, k, i))
  {
    if k > 0 {
      XPowerBit(b, k - 1, 127);
      if i > 0 {
        XPowerBit(b, k - 1, i - 1);
      }
      XTimeStep(b, k, i, XPower(b, k - 1));
    }
  }

  lemma {:induction false} EvalConcat(lo: Bits, hi: Bits, b: Block)
    ensures Eval(lo + hi, b) == Xor(Eval(lo, b), XPower(Eval(hi, b), |lo|))
  {
    if lo == [] {
      assert lo + hi == hi;
      assert Xor(ZERO, Eval(hi, b)) == Eval(hi, b);
    } else {
      assert (lo + hi)[1..] == lo[1..] + hi;
      EvalConcat(lo[1..], hi, b);
      var u, v := Eval(lo[1..], b), XPower(Eval(hi, b), |lo| - 1);
      XTimeXor(u, v);
      XorAssociates(Scale(lo[0], b), XTime(u), XTime(v));
    }
  }

  lemma {:induction false} EvalMonomial(k: nat, b: Block)
    ensures Eval(Zeros(k) + [true], b) == XPower(b, k)
  {
    var p := Zeros(k) + [true];
    if k == 0 {
      XTimeZero();
      assert Xor(Scale(true, b), ZERO) == b;
    } else {
      assert p[1..] == Zeros(k - 1) + [true];
      EvalMonomial(k - 1, b);
      var u := XTime(XPower(b, k - 1));
      assert Xor(Scale(false, b), u) == u;
    }
  }

  /** `X^128 · b == (X^7 + X^2 + X + 1) · b` */
  lemma XPower128(b: Block)
    ensures XPower(b, 128) == Mul(TAPS, b)
  {
    EvalMonomial(128, b);
    BlockResidue(b);
    EvalCommutes(Zeros(128) + [true], b, ONE);
    TopPower();
    MulCommutes(b, TAPS);
  }

  lemma PaddedMonomial(k: nat, b: Block, p: Bits, m: Bits)
    requires k < 128 && p == Zeros(k) + [true] && m == p + Zeros(127 - k)
    ensures Eval(m, b) == XPower(b, k)
  {
    EvalMonomial(k, b);
    EvalPad(p, 127 - k, b);
  }

  lemma TapsTimes(b: Block)
    ensures Mul(TAPS, b) == Xor(Xor(Xor(XPower(b, 0), XPower(b, 1)), XPower(b, 2)), XPower(b, 7))
  {
    var p0, p1, p2, p7 := Zeros(0) + [true], Zeros(1) + [true], Zeros(2) + [true], Zeros(7) + [true];
    var m0, m1, m2, m7 := p0 + Zeros(127), p1 + Zeros(126), p2 + Zeros(125), p7 + Zeros(120);
    assert TAPS == Xor(Xor(Xor(m0, m1), m2), m7);
    EvalLeftXor(Xor(Xor(m0, m1), m2), m7, b);
    EvalLeftXor(Xor(m0, m1), m2, b);
    EvalLeftXor(m0, m1, b);
    PaddedMonomial(0, b, p0, m0);
    PaddedMonomial(1, b, p1, m1);
    PaddedMonomial(2, b, p2, m2);
    PaddedMonomial(7, b, p7, m7);
  }

  lemma FoldedBit(hi: Block, i: int)
    ensures Coef(Folded(hi), i) == (Coef(hi, i) != (Spill(hi, 1, i) != (Spill(hi, 2, i) != Spill(hi, 7, i))))
  {
  }

  lemma SpreadBit(w: Block, i: nat)
    requires i < 128
    ensures Spread(w)[i] == Xor4(Coef(w, i), Coef(w, i - 1), Coef(w, i - 2), Coef(w, i - 7))
  {
  }

  /** The four taps of the folded word, sorted by where their bits came from. */
  lemma FoldedTaps(hi: Block, w: Block, i: int)
    requires w == Folded(hi)
    ensures Xor4(Coef(w, i), Coef(w, i - 1), Coef(w, i - 2), Coef(w, i - 7))
         == (Xor4(Coef(hi, i), Coef(hi, i - 1), Coef(hi, i - 2), Coef(hi, i - 7))
             != (SpillTaps(hi, 1, i) != (SpillTaps(hi, 2, i) != SpillTaps(hi, 7, i))))
  {
    FoldedBit(hi, i);
    FoldedBit(hi, i - 1);
    FoldedBit(hi, i - 2);
    FoldedBit(hi, i - 7);
    var c0, c1, c2, c7 := Coef(hi, i), Coef(hi, i - 1), Coef(hi, i - 2), Coef(hi, i - 7);
    var d0, d1, d2, d7 := Spill(hi, 1, i), Spill(hi, 1, i - 1), Spill(hi, 1, i - 2), Spill(hi, 1, i - 7);
    var e0, e1, e2, e7 := Spill(hi, 2, i), Spill(hi, 2, i - 1), Spill(hi, 2, i - 2), Spill(hi, 2, i - 7);
    var f0, f1, f2, f7 := Spill(hi, 7, i), Spill(hi, 7, i - 1), Spill(hi, 7, i - 2), Spill(hi, 7, i - 7);
    Xor4Sum(e0, e1, e2, e7, f0, f1, f2, f7);
    Xor4Sum(d0, d1, d2, d7, e0 != f0, e1 != f1, e2 != f2, e7 != f7);
    Xor4Sum(c0, c1, c2, c7, d0 != (e0 != f0), d1 != (e1 != f1), d2 != (e2 != f2), d7 != (e7 != f7));
  }

  lemma SpreadFoldedWith(hi: Block, w: Block, i: nat, x1: bool, x2: bool, x7: bool)
    requires i < 128 && w == Folded(hi)
    requires x1 == (Coef(hi, i - 1) != SpillTaps(hi, 1, i)) && x2 == (Coef(hi, i - 2) != SpillTaps(hi, 2, i))
    requires x7 == (Coef(hi, i - 7) != SpillTaps(hi, 7, i))
    ensures Spread(w)[i] == (((hi[i] != x1) != x2) != x7)
  {
    SpreadBit(w, i);
    FoldedTaps(hi, w, i);
  }

  lemma SpreadFolded(hi: Block, i: nat)
    requires i < 128
    ensures Spread(Folded(hi))[i] == (((hi[i] != XPower(hi, 1)[i]) != XPower(hi, 2)[i]) != XPower(hi, 7)[i])
  {
    XPowerBit(hi, 1, i);
    XPowerBit(hi, 2, i);
    XPowerBit(hi, 7, i);
    SpreadFoldedWith(hi, Folded(hi), i, XPower(hi, 1)[i], XPower(hi, 2)[i], XPower(hi, 7)[i]);
  }

  lemma SpreadIsTapsTimes(hi: Block)
    ensures Spread(Folded(hi)) == Mul(TAPS, hi)
  {
    TapsTimes(hi);
    forall i | 0 <= i < 128 ensures Spread(Folded(hi))[i] == Mul(TAPS, hi)[i] {
      SpreadFolded(hi, i);
    }
  }

  lemma ReduceGcmCorrect(lo: Block, hi: Block)
    ensures ReduceGcm(lo, hi) == Residue(lo + hi)
  {
    EvalConcat(lo, hi, ONE);
    BlockResidue(lo);
    BlockResidue(hi);
    XPower128(hi);
    SpreadIsTapsTimes(hi);
  }

  // Block operations.

  function GfMul(a: Block, b: Block): Block {
    var (lo, hi) := Clmul(a, b);
    ReduceGcm(lo, hi)
  }

  /** `gfmul` is multiplication modulo X^128 + X^7 + X^2 + X + 1. */
  lemma GfMulCorrect(a: Block, b: Block)
    ensures GfMul(a, b) == Mul(a, b)
  {
    ClmulCorrect(a, b);
    var (lo, hi) := Clmul(a, b);
    ReduceGcmCorrect(lo, hi);
    ResidueOfProduct(a, b);
  }

  /** `p == q·MODULUS + r` */
  ghost predicate DividesTo(p: Bits, q: Bits, r: Block) {
    forall s :: Coef(p, s) == (ProductCoef(q, MODULUS, s) != Coef(r, s))
  }

  /** `r` is the residue exactly when it differs from `p` by a multiple of the modulus. */
  lemma ResidueIsRemainder(p: Bits, r: Block)
    ensures Residue(p) == r <==> exists q: Bits :: DividesTo(p, q, r)
  {
    var q := ResidueQuotient(p);
    assert DividesTo(p, q, Residue(p));
    if exists q': Bits :: DividesTo(p, q', r) {
      var q': Bits :| DividesTo(p, q', r);
      ResidueUnique(p, q', r);
    }
  }

  /** `gfmul` returns exactly the remainder of the product by the modulus. */
  lemma GfMulIsRemainder(a: Block, b: Block, r: Block)
    ensures GfMul(a, b) == r <==> exists q: Bits :: DividesTo(Product(a, b), q, r)
  {
    GfMulCorrect(a, b);
    ResidueOfProduct(a, b);
    ResidueIsRemainder(Product(a, b), r);
  }

  /** XOR of unreduced products, folded from the left. */
  function XorPairs(t: seq<(Block, Block)>): (Block, Block) {
    if t == [] then (ZERO, ZERO)
    else
      var acc, last := XorPairs(t[..|t| - 1]), t[|t| - 1];
      (Xor(last.0, acc.0), Xor(last.1, acc.1))
  }

  function InnerProductNoRed(a: seq<Block>, b: seq<Block>): (Block, Block)
    requires |a| == |b|
  {
    XorPairs(seq(|a|, i requires 0 <= i < |a| => Clmul(a[i], b[i])))
  }

  function InnerProductRed(a: seq<Block>, b: seq<Block>): Block
    requires |a| == |b|
  {
    var (lo, hi) := InnerProductNoRed(a, b);
    ReduceGcm(lo, hi)
  }

  /** The 256-bit polynomial held by a low and a high block. */
  function Joined(p: (Block, Block)): Bits {
    var lo: Bits := p.0;
    lo + p.1
  }

  function Reduced(t: seq<(Block, Block)>): seq<Block> {
    seq(|t|, i requires 0 <= i < |t| => Residue(Joined(t[i])))
  }

  lemma ResidueXor(p: (Block, Block), q: (Block, Block))
    ensures Residue(Joined((Xor(p.0, q.0), Xor(p.1, q.1)))) == Xor(Residue(Joined(q)), Residue(Joined(p)))
  {
    assert Xor(Joined(q), Joined(p)) == Joined((Xor(p.0, q.0), Xor(p.1, q.1)));
    EvalLeftXor(Joined(q), Joined(p), ONE);
  }

  lemma ResidueOfNothing(n: nat)
    requires n == 256
    ensures Residue(Joined((ZERO, ZERO))) == ZERO
  {
    assert Joined((ZERO, ZERO)) == Zeros(n);
    EvalZeros(n, ONE);
  }

  lemma ReducedPrefix(t: seq<(Block, Block)>, n: nat)
    requires n + 1 == |t|
    ensures XorSum(Reduced(t)) == Xor(XorSum(Reduced(t[..n])), Residue(Joined(t[n])))
  {
    assert Reduced(t)[..n] == Reduced(t[..n]);
  }

  lemma {:induction false} ResidueOfXorPairs(t: seq<(Block, Block)>)
    ensures Residue(Joined(XorPairs(t))) == XorSum(Reduced(t))
  {
    if t == [] {
      ResidueOfNothing(256);
    } else {
      var n := |t| - 1;
      ResidueOfXorPairs(t[..n]);
      ReducedPrefix(t, n);
      ResidueXor(t[n], XorPairs(t[..n]));
    }
  }

  function Products(a: seq<Block>, b: seq<Block>): seq<Block>
    requires |a| == |b|
  {
    seq(|a|, i requires 0 <= i < |a| => Mul(a[i], b[i]))
  }

  /** The inner product in GF(2^128). */
  function InnerProduct(a: seq<Block>, b: seq<Block>): Block
    requires |a| == |b|
  {
    XorSum(Products(a, b))
  }

  /** Reducing once at the end equals the XOR of the individual field products. */
  lemma InnerProductCorrect(a: seq<Block>, b: seq<Block>)
    requires |a| == |b|
    ensures InnerProductRed(a, b) == InnerProduct(a, b)
  {
    var t := seq(|a|, i requires 0 <= i < |a| => Clmul(a[i], b[i]));
    ReduceGcmCorrect(XorPairs(t).0, XorPairs(t).1);
    ResidueOfXorPairs(t);
    assert Reduced(t) == Products(a, b) by {
      forall i | 0 <= i < |a| ensures Reduced(t)[i] == Products(a, b)[i] {
        ClmulCorrect(a[i], b[i]);
        ResidueOfProduct(a[i], b[i]);
      }
    }
  }
}
