/** Portable carry-less multiplication by masked integer multiplication and bit reversal. */
module CarrylessMul {
  import opened Bits
  import opened Polynomials

  /** A `u64`. */
  type Word = w: Bits | |w| == 64 witness seq(64, _ => false)

  /** `u64::wrapping_mul`: the low 64 bits of the integer product. */
  function WrappingMul(x: Word, y: Word): Word {
    FromNat(Value(x) * Value(y), 64)
  }

  /** The mask selecting every fourth bit, starting at bit `k`. */
  function LaneMask(k: nat): Word
    requires k < 4
  {
    seq(64, i => i % 4 == k)
  }

  function Lane(x: Word, k: nat): Word
    requires k < 4
  {
    And(x, LaneMask(k))
  }

  /** XOR of four words, masked to lane `k`. */
  function Combine(w0: Word, w1: Word, w2: Word, w3: Word, k: nat): (r: Word)
    requires k < 4
    ensures forall m | 0 <= m < 64 :: r[m] == (m % 4 == k && (((w0[m] != w1[m]) != w2[m]) != w3[m]))
  {
    And(Xor(Xor(Xor(w0, w1), w2), w3), LaneMask(k))
  }

  /** Lanes 0 to 3 of `x` times the given lanes of `y`, in lane `q0`. */
  function LaneSum(x: Word, y: Word, q0: nat, q1: nat, q2: nat, q3: nat): Word
    requires q0 < 4 && q1 < 4 && q2 < 4 && q3 < 4
  {
    Combine(WrappingMul(Lane(x, 0), Lane(y, q0)),
            WrappingMul(Lane(x, 1), Lane(y, q1)),
            WrappingMul(Lane(x, 2), Lane(y, q2)),
            WrappingMul(Lane(x, 3), Lane(y, q3)),
            q0)
  }

  /** The low 64 bits of the carry-less product, computed with integer multiplications. */
  function Bmul64(x: Word, y: Word): Word {
    Or(Or(Or(LaneSum(x, y, 0, 3, 2, 1), LaneSum(x, y, 1, 0, 3, 2)),
          LaneSum(x, y, 2, 1, 0, 3)),
       LaneSum(x, y, 3, 2, 1, 0))
  }

  // The holes absorb the carries.

  /** `a` has set bits only at positions congruent to `k` modulo 4. */
  predicate InLane(a: Bits, k: nat) {
    forall i | 0 <= i < |a| :: a[i] ==> i % 4 == k
  }

  lemma LaneInLane(x: Word, k: nat)
    requires k < 4
    ensures InLane(Lane(x, k), k)
    ensures forall i | 0 <= i < 64 :: Lane(x, k)[i] == (x[i] && i % 4 == k)
  {
  }

  /** The lane of a word without its first bit. */
  function TailLane(p: nat): nat {
    if p == 0 then 3 else p - 1
  }

  lemma TailInLane(a: Bits, p: nat)
    requires InLane(a, p) && p < 4 && a != []
    ensures InLane(a[1..], TailLane(p)) && (a[0] ==> p == 0)
  {
    forall i | 0 <= i < |a[1..]| ensures a[1..][i] ==> i % 4 == TailLane(p) {
      assert a[1..][i] == a[i + 1];
    }
  }

  /** Pairs of bits from lanes `p` and `q` meet only in lane `p + q`. */
  lemma {:induction false} PairsStayInLane(a: Bits, p: nat, b: Bits, q: nat, s: int)
    requires InLane(a, p) && InLane(b, q) && p < 4 && q < 4
    requires s % 4 != (p + q) % 4
    ensures PairCount(a, b, s) == 0
    decreases |a|
  {
    if a != [] {
      TailInLane(a, p);
      PairsStayInLane(a[1..], TailLane(p), b, q, s - 1);
    }
  }

  lemma FourFewer(d: nat)
    ensures d / 4 == if d < 4 then 0 else (d - 4) / 4 + 1
  {
    if d < 4 {
      DivModUnique(d, 4, 0, d);
    } else {
      DivModUnique(d, 4, (d - 4) / 4 + 1, (d - 4) % 4);
    }
  }

  /** At most one pair per lane position up to `s`: a slot below bit 60 holds at most 15. */
  lemma {:induction false} SlotBound(a: Bits, p: nat, b: Bits, s: int)
    requires InLane(a, p) && p < 4
    ensures PairCount(a, b, s) <= if s < p then 0 else (s - p) / 4 + 1
    decreases |a|
  {
    if a != [] {
      TailInLane(a, p);
      SlotBound(a[1..], TailLane(p), b, s - 1);
      if s >= 0 && p == 0 {
        FourFewer(s);
      }
    }
  }

  /** The slots below position `m` never carry into it. */
  lemma {:induction false} NoCarry(a: Bits, p: nat, b: Bits, q: nat, m: nat)
    requires InLane(a, p) && InLane(b, q) && p < 4 && q < 4
    requires m < 64 && m % 4 == (p + q) % 4
    ensures PairSum(a, b, m) < Pow2(m)
  {
    if m < 4 {
      EmptyBelow(a, p, b, q, m);
    } else {
      NoCarry(a, p, b, q, m - 4);
      SlotBound(a, p, b, m - 4);
      forall s | m - 4 < s < m ensures PairCount(a, b, s) == 0 {
        PairsStayInLane(a, p, b, q, s);
      }
      SmallSlot(PairCount(a, b, m - 4), m - 4);
      ScaledZeroOne(m - 3);
      ScaledZeroOne(m - 2);
      ScaledZeroOne(m - 1);
      assert PairSum(a, b, m) == PairSum(a, b, m - 1) == PairSum(a, b, m - 2) == PairSum(a, b, m - 3);
      assert Pow2(m) == 2 * Pow2(m - 1) == 4 * Pow2(m - 2) == 8 * Pow2(m - 3) == 16 * Pow2(m - 4);
    }
  }

  lemma {:induction false} SmallSlot(c: nat, n: nat)
    requires c <= 15
    ensures Scaled(c, n) <= 15 * Pow2(n)
  {
    if n > 0 {
      SmallSlot(c, n - 1);
    }
  }

  lemma {:induction false} EmptyBelow(a: Bits, p: nat, b: Bits, q: nat, m: nat)
    requires InLane(a, p) && InLane(b, q) && p < 4 && q < 4
    requires m <= (p + q) % 4
    ensures PairSum(a, b, m) == 0
  {
    if m > 0 {
      PairsStayInLane(a, p, b, q, m - 1);
      ScaledZeroOne(m - 1);
      EmptyBelow(a, p, b, q, m - 1);
    }
  }

  /** PairSum splits at `m` into the part below and a multiple of 2^m whose parity is slot `m`'s. */
  lemma {:induction false} PairSumAbove(a: Bits, b: Bits, m: nat, n: nat) returns (hi: nat)
    requires m < n
    ensures PairSum(a, b, n) == PairSum(a, b, m) + Scaled(hi, m)
    ensures hi % 2 == PairCount(a, b, m) % 2
  {
    var c := PairCount(a, b, n - 1);
    if n == m + 1 {
      hi := c;
    } else {
      var h := PairSumAbove(a, b, m, n - 1);
      var above := Scaled(c, n - 1 - m);
      hi := h + above;
      ScaledTwice(c, n - 1 - m, m);
      ScaledSum(h, above, m);
      assert above == 2 * Scaled(c, n - 2 - m);
      AddEven(h, Scaled(c, n - 2 - m));
    }
  }

  /** A lane product is exact, modulo 2, at every position of its own lane. */
  lemma LaneProductBit(a: Word, p: nat, b: Word, q: nat, m: nat)
    requires InLane(a, p) && InLane(b, q) && p < 4 && q < 4
    requires m < 64 && m % 4 == (p + q) % 4
    ensures WrappingMul(a, b)[m] == ProductCoef(a, b, m)
  {
    PairSumIsProduct(a, b, 128);
    NoCarry(a, p, b, q, m);
    var hi := PairSumAbove(a, b, m, 128);
    FromNatBit(PairSum(a, b, m), hi, m, 64);
    PairCountParity(a, b, m);
  }

  lemma CrossLaneProduct(a: Word, p: nat, b: Word, q: nat, m: nat)
    requires InLane(a, p) && InLane(b, q) && p < 4 && q < 4
    requires m % 4 != (p + q) % 4
    ensures !ProductCoef(a, b, m)
  {
    PairsStayInLane(a, p, b, q, m);
    PairCountParity(a, b, m);
  }

  lemma LanesRecombine(x: Word)
    ensures x == Xor(Xor(Lane(x, 0), Lane(x, 1)), Xor(Lane(x, 2), Lane(x, 3)))
  {
    LaneInLane(x, 0);
    LaneInLane(x, 1);
    LaneInLane(x, 2);
    LaneInLane(x, 3);
    forall i | 0 <= i < 64
      ensures x[i] == Xor(Xor(Lane(x, 0), Lane(x, 1)), Xor(Lane(x, 2), Lane(x, 3)))[i]
    {
    }
  }

  lemma RightLanes(a: Word, y: Word, m: nat)
    ensures ProductCoef(a, y, m)
         == ((ProductCoef(a, Lane(y, 0), m) != ProductCoef(a, Lane(y, 1), m))
             != (ProductCoef(a, Lane(y, 2), m) != ProductCoef(a, Lane(y, 3), m)))
  {
    LanesRecombine(y);
    ProductRightXor(a, Xor(Lane(y, 0), Lane(y, 1)), Xor(Lane(y, 2), Lane(y, 3)), m);
    ProductRightXor(a, Lane(y, 0), Lane(y, 1), m);
    ProductRightXor(a, Lane(y, 2), Lane(y, 3), m);
  }

  /** Of one lane of `x` times `y`, only the lane of `y` landing on `m` contributes. */
  lemma LaneTerm(x: Word, y: Word, p: nat, q: nat, m: nat)
    requires p < 4 && q < 4 && m < 64 && (p + q) % 4 == m % 4
    ensures ProductCoef(Lane(x, p), y, m) == WrappingMul(Lane(x, p), Lane(y, q))[m]
  {
    var a := Lane(x, p);
    LaneInLane(x, p);
    RightLanes(a, y, m);
    forall r | 0 <= r < 4
      ensures ProductCoef(a, Lane(y, r), m) == (r == q && WrappingMul(a, Lane(y, r))[m])
    {
      LaneInLane(y, r);
      if r == q {
        LaneProductBit(a, p, Lane(y, r), r, m);
      } else {
        CrossLaneProduct(a, p, Lane(y, r), r, m);
      }
    }
  }

  lemma ProductByLanes(x: Word, y: Word, m: nat)
    ensures ProductCoef(x, y, m)
         == ((ProductCoef(Lane(x, 0), y, m) != ProductCoef(Lane(x, 1), y, m))
             != (ProductCoef(Lane(x, 2), y, m) != ProductCoef(Lane(x, 3), y, m)))
  {
    LanesRecombine(x);
    ProductLeftXor(Xor(Lane(x, 0), Lane(x, 1)), Xor(Lane(x, 2), Lane(x, 3)), y, m);
    ProductLeftXor(Lane(x, 0), Lane(x, 1), y, m);
    ProductLeftXor(Lane(x, 2), Lane(x, 3), y, m);
  }

  lemma CombineBit(x: Word, y: Word, w0: Word, w1: Word, w2: Word, w3: Word, k: nat, m: nat)
    requires k < 4 && m < 64
    requires m % 4 == k ==> w0[m] == ProductCoef(Lane(x, 0), y, m) && w1[m] == ProductCoef(Lane(x, 1), y, m)
    requires m % 4 == k ==> w2[m] == ProductCoef(Lane(x, 2), y, m) && w3[m] == ProductCoef(Lane(x, 3), y, m)
    ensures Combine(w0, w1, w2, w3, k)[m] == (m % 4 == k && ProductCoef(x, y, m))
  {
    ProductByLanes(x, y, m);
  }

  /** Each lane of `x` has its partner among the lanes of `y`. */
  lemma LanesMeet(q0: nat, q1: nat, q2: nat, q3: nat, m: nat)
    requires q0 < 4 && q1 == (q0 + 3) % 4 && q2 == (q0 + 2) % 4 && q3 == (q0 + 1) % 4 && m % 4 == q0
    ensures (0 + q0) % 4 == m % 4 && (1 + q1) % 4 == m % 4 && (2 + q2) % 4 == m % 4 && (3 + q3) % 4 == m % 4
  {
  }

  lemma LaneSumBit(x: Word, y: Word, q0: nat, q1: nat, q2: nat, q3: nat, m: nat)
    requires q0 < 4 && q1 < 4 && q2 < 4 && q3 < 4 && m < 64
    requires q1 == (q0 + 3) % 4 && q2 == (q0 + 2) % 4 && q3 == (q0 + 1) % 4
    ensures LaneSum(x, y, q0, q1, q2, q3)[m] == (m % 4 == q0 && ProductCoef(x, y, m))
  {
    var w0, w1, w2, w3 := WrappingMul(Lane(x, 0), Lane(y, q0)), WrappingMul(Lane(x, 1), Lane(y, q1)),
                          WrappingMul(Lane(x, 2), Lane(y, q2)), WrappingMul(Lane(x, 3), Lane(y, q3));
    if m % 4 == q0 {
      LanesMeet(q0, q1, q2, q3, m);
      LaneTerm(x, y, 0, q0, m);
      LaneTerm(x, y, 1, q1, m);
      LaneTerm(x, y, 2, q2, m);
      LaneTerm(x, y, 3, q3, m);
    }
    CombineBit(x, y, w0, w1, w2, w3, q0, m);
  }

  /** For all words, the masked integer multiplications give the low half of the GF(2)[X] product. */
  lemma Bmul64Correct(x: Word, y: Word)
    ensures Bmul64(x, y) == Product(x, y)[..64]
  {
    forall m | 0 <= m < 64
      ensures Bmul64(x, y)[m] == ProductCoef(x, y, m)
    {
      LaneSumBit(x, y, 0, 3, 2, 1, m);
      LaneSumBit(x, y, 1, 0, 3, 2, m);
      LaneSumBit(x, y, 2, 1, 0, 3, m);
      LaneSumBit(x, y, 3, 2, 1, 0, m);
    }
  }

  // Bit reversal by exchanging ever larger halves.

  /** 0x5555..., 0x3333..., 0x0f0f..., 0x00ff..., 0x0000ffff...: the low half of every `2h` bits. */
  function HalfMask(h: nat): Word
    requires h > 0
  {
    seq(64, i requires 0 <= i < 64 => i % (2 * h) < h)
  }

  /** `((x & m) << h) | ((x >> h) & m)` */
  function Exchange(x: Word, h: nat): Word
    requires h > 0
  {
    Or(Shl(And(x, HalfMask(h)), h), And(Shr(x, h), HalfMask(h)))
  }

  function SwapBytes(x: Word): Word {
    seq(64, i requires 0 <= i < 64 => x[8 * (7 - i / 8) + i % 8])
  }

  function RotateRight32(x: Word): Word {
    seq(64, i requires 0 <= i < 64 => x[(i + 32) % 64])
  }

  /** `rev64` of the field crate. */
  function Rev64Bytes(x: Word): Word {
    SwapBytes(Exchange(Exchange(Exchange(x, 1), 2), 4))
  }

  /** `rev64` of the clmul crate. */
  function Rev64(x: Word): Word {
    RotateRight32(Exchange(Exchange(Exchange(Exchange(Exchange(x, 1), 2), 4), 8), 16))
  }

  /** Position `r` of the `q`-th run of `w` bits. */
  function Pos(q: nat, w: nat, r: nat): nat {
    q * w + r
  }

  lemma PosBound(q: nat, w: nat, r: nat, n: nat)
    requires q < n && r < w && n * w == 64
    ensures Pos(q, w, r) < 64
    ensures Pos(q, w, r) / w == q && Pos(q, w, r) % w == r
  {
    MulMonotone(w, q + 1, n);
    assert w * (q + 1) == q * w + w;
    DivModUnique(q * w + r, w, q, r);
  }

  /** `y` is `x` with each of its `n` runs of `w` bits reversed. */
  ghost predicate RunsReversed(x: Word, y: Word, w: nat, n: nat) {
    forall q: nat, r: nat {:trigger Pos(q, w, r)} | q < n && r < w ::
      Pos(q, w, r) < 64 && Pos(q, w, w - 1 - r) < 64 && y[Pos(q, w, r)] == x[Pos(q, w, w - 1 - r)]
  }

  lemma ExchangeBit(x: Word, h: nat, i: nat)
    requires h > 0 && i < 64
    ensures Exchange(x, h)[i]
         == ((i >= h && x[i - h] && (i - h) % (2 * h) < h) || (Coef(x, i + h) && i % (2 * h) < h))
  {
    assert Shl(And(x, HalfMask(h)), h)[i] == Coef(And(x, HalfMask(h)), i - h);
  }

  lemma ExchangeAt(x: Word, h: nat, n: nat, q: nat, r: nat)
    requires n * (2 * h) == 64 && q < n && r < 2 * h
    ensures Pos(q, 2 * h, r) < 64
    ensures r < h ==> Pos(q, 2 * h, r + h) < 64 && Exchange(x, h)[Pos(q, 2 * h, r)] == x[Pos(q, 2 * h, r + h)]
    ensures r >= h ==> Exchange(x, h)[Pos(q, 2 * h, r)] == x[Pos(q, 2 * h, r - h)]
  {
    PosBound(q, 2 * h, r, n);
    var i, w := Pos(q, 2 * h, r), 2 * h;
    ExchangeBit(x, h, i);
    if r < h {
      PosBound(q, w, r + h, n);
      assert i - h == w * (q - 1) + (r + h);
      DivModUnique(i - h, w, q - 1, r + h);
    } else {
      PosBound(q, w, r - h, n);
    }
  }

  /** Exchanging the halves of every run of `2h` doubles the length of the reversed runs. */
  lemma ExchangeDoubles(x: Word, y: Word, h: nat, n: nat)
    requires h > 0 && n * (2 * h) == 64
    requires RunsReversed(x, y, h, 2 * n)
    ensures RunsReversed(x, Exchange(y, h), 2 * h, n)
  {
    forall q: nat, r: nat {:trigger Pos(q, 2 * h, r)} | q < n && r < 2 * h
      ensures Pos(q, 2 * h, r) < 64 && Pos(q, 2 * h, 2 * h - 1 - r) < 64
      ensures Exchange(y, h)[Pos(q, 2 * h, r)] == x[Pos(q, 2 * h, 2 * h - 1 - r)]
    {
      PosBound(q, 2 * h, 2 * h - 1 - r, n);
      ExchangeAt(y, h, n, q, r);
      HalfRuns(q, h);
      if r < h {
        assert Pos(q, 2 * h, r + h) == Pos(2 * q + 1, h, r);
        assert Pos(2 * q + 1, h, h - 1 - r) == Pos(q, 2 * h, 2 * h - 1 - r);
      } else {
        assert Pos(q, 2 * h, r - h) == Pos(2 * q, h, r - h);
        assert Pos(2 * q, h, h - 1 - (r - h)) == Pos(q, 2 * h, 2 * h - 1 - r);
      }
    }
  }

  lemma HalfRuns(q: nat, h: nat)
    ensures (2 * q) * h == q * (2 * h) && (2 * q + 1) * h == q * (2 * h) + h
  {
  }

  lemma SwapBytesReverses(x: Word, y: Word)
    requires RunsReversed(x, y, 8, 8)
    ensures SwapBytes(y) == Reverse(x)
  {
    forall i | 0 <= i < 64 ensures SwapBytes(y)[i] == x[63 - i] {
      assert 8 * (7 - i / 8) + i % 8 == Pos(7 - i / 8, 8, i % 8);
    }
  }

  lemma RotateReverses(x: Word, y: Word)
    requires RunsReversed(x, y, 32, 2)
    ensures RotateRight32(y) == Reverse(x)
  {
    forall i | 0 <= i < 64 ensures RotateRight32(y)[i] == x[63 - i] {
      assert (i + 32) % 64 == if i < 32 then Pos(1, 32, i) else Pos(0, 32, i - 32);
    }
  }

  lemma BytesReversed(x: Word)
    ensures RunsReversed(x, Exchange(Exchange(Exchange(x, 1), 2), 4), 8, 8)
  {
    ExchangeDoubles(x, x, 1, 32);
    ExchangeDoubles(x, Exchange(x, 1), 2, 16);
    ExchangeDoubles(x, Exchange(Exchange(x, 1), 2), 4, 8);
  }

  lemma Rev64BytesCorrect(x: Word)
    ensures Rev64Bytes(x) == Reverse(x)
  {
    BytesReversed(x);
    SwapBytesReverses(x, Exchange(Exchange(Exchange(x, 1), 2), 4));
  }

  lemma Rev64Correct(x: Word)
    ensures Rev64(x) == Reverse(x)
  {
    BytesReversed(x);
    var y := Exchange(Exchange(Exchange(x, 1), 2), 4);
    ExchangeDoubles(x, y, 8, 4);
    ExchangeDoubles(x, Exchange(y, 8), 16, 2);
    RotateReverses(x, Exchange(Exchange(y, 8), 16));
  }

  // Full products.

  /** `z` is the low half of the product. */
  predicate LowHalf(z: Word, x: Word, y: Word) {
    forall i | 0 <= i < 64 :: z[i] == ProductCoef(x, y, i)
  }

  /** `w` is `z` reversed and shifted by one. */
  predicate ReversedHigh(w: Word, z: Word) {
    forall i | 0 <= i < 64 :: w[i] == (i < 63 && z[62 - i])
  }

  /** The high half of a product from the low half of the product of the reversed factors. */
  lemma HighHalfBit(x: Word, y: Word, z: Word, w: Word, i: nat)
    requires i < 64 && LowHalf(z, Reverse(x), Reverse(y)) && ReversedHigh(w, z)
    ensures w[i] == ProductCoef(x, y, 64 + i)
  {
    if i == 63 {
      ProductDegree(x, y, 127);
    } else {
      ProductReverse(x, y, 64 + i);
      assert w[i] == z[62 - i];
    }
  }

  lemma Bmul64Low(x: Word, y: Word)
    ensures LowHalf(Bmul64(x, y), x, y)
  {
    Bmul64Correct(x, y);
  }

  lemma LowHalfBit(x: Word, y: Word, i: nat)
    requires i < 64
    ensures Bmul64(x, y)[i] == ProductCoef(x, y, i)
  {
    Bmul64Correct(x, y);
  }

  function Bmul64Full(x: Word, y: Word): (Word, Word) {
    (Bmul64(x, y), Shr(Rev64Bytes(Bmul64(Rev64Bytes(x), Rev64Bytes(y))), 1))
  }

  lemma ShiftedReverse(z: Word)
    ensures ReversedHigh(Shr(Reverse(z), 1), z)
  {
  }

  lemma HalvesAreProduct(x: Word, y: Word, lo: Word, z: Word, hi: Word)
    requires LowHalf(lo, x, y) && LowHalf(z, Reverse(x), Reverse(y)) && ReversedHigh(hi, z)
    ensures lo + hi == Product(x, y)
  {
    forall s | 0 <= s < 128 ensures (lo + hi)[s] == Product(x, y)[s] {
      if s >= 64 {
        HighHalfBit(x, y, z, hi, s - 64);
      }
    }
  }

  lemma Bmul64FullCorrect(x: Word, y: Word)
    ensures var (lo, hi) := Bmul64Full(x, y); lo + hi == Product(x, y)
  {
    Rev64BytesCorrect(x);
    Rev64BytesCorrect(y);
    var z := Bmul64(Reverse(x), Reverse(y));
    Rev64BytesCorrect(z);
    Bmul64Low(x, y);
    Bmul64Low(Reverse(x), Reverse(y));
    ShiftedReverse(z);
    HalvesAreProduct(x, y, Bmul64(x, y), z, Shr(Reverse(z), 1));
  }

  /** Lays out four 128-bit products, given as (low, high) words, as a 256-bit value. */
  function Layout(p00: (Word, Word), p11: (Word, Word), p01: (Word, Word), p10: (Word, Word)): (Block, Block) {
    (Xor(p00.0 + p00.1, Zeros(64) + Xor(p01.0, p10.0)),
     Xor(p11.0 + p11.1, Xor(p01.1, p10.1) + Zeros(64)))
  }

  lemma LayoutBit(p00: (Word, Word), p11: (Word, Word), p01: (Word, Word), p10: (Word, Word), s: nat)
    requires s < 256
    ensures var (lo, hi) := Layout(p00, p11, p01, p10);
            (lo + hi)[s] == ((Coef(p00.0 + p00.1, s) != Coef(p11.0 + p11.1, s - 128))
                             != (Coef(p01.0 + p01.1, s - 64) != Coef(p10.0 + p10.1, s - 64)))
  {
  }

  /** Schoolbook product of two 128-bit values from four 64-bit products. */
  function Bmul128Full(a: Block, b: Block): (Block, Block) {
    var aLo, aHi, bLo, bHi := a[..64], a[64..], b[..64], b[64..];
    Layout(Bmul64Full(aLo, bLo), Bmul64Full(aHi, bHi), Bmul64Full(aLo, bHi), Bmul64Full(aHi, bLo))
  }

  /** The product of two 128-bit values in terms of their halves. */
  lemma HalvesProduct(a: Block, b: Block, s: int)
    ensures ProductCoef(a, b, s)
         == ((ProductCoef(a[..64], b[..64], s) != ProductCoef(a[64..], b[64..], s - 128))
             != (ProductCoef(a[..64], b[64..], s - 64) != ProductCoef(a[64..], b[..64], s - 64)))
  {
    assert a == a[..64] + a[64..] && b == b[..64] + b[64..];
    ProductLeftConcat(a[..64], a[64..], b, s);
    ProductRightConcat(a[..64], b[..64], b[64..], s);
    ProductRightConcat(a[64..], b[..64], b[64..], s - 64);
  }

  /** `p` holds the full product of `x` and `y`. */
  predicate IsProduct(p: (Word, Word), x: Word, y: Word) {
    p.0 + p.1 == Product(x, y)
  }

  lemma LayoutCorrect(a: Block, b: Block, p00: (Word, Word), p11: (Word, Word), p01: (Word, Word), p10: (Word, Word))
    requires IsProduct(p00, a[..64], b[..64]) && IsProduct(p11, a[64..], b[64..])
    requires IsProduct(p01, a[..64], b[64..]) && IsProduct(p10, a[64..], b[..64])
    ensures var (lo, hi) := Layout(p00, p11, p01, p10); lo + hi == Product(a, b)
  {
    var (lo, hi) := Layout(p00, p11, p01, p10);
    forall s | 0 <= s < 256 ensures (lo + hi)[s] == ProductCoef(a, b, s) {
      HalvesProduct(a, b, s);
      LayoutBit(p00, p11, p01, p10, s);
      ProductAt(a[..64], b[..64], s);
      ProductAt(a[64..], b[64..], s - 128);
      ProductAt(a[..64], b[64..], s - 64);
      ProductAt(a[64..], b[..64], s - 64);
    }
  }

  lemma Bmul128FullCorrect(a: Block, b: Block)
    ensures var (lo, hi) := Bmul128Full(a, b); lo + hi == Product(a, b)
  {
    var a0, a1, b0, b1 := a[..64], a[64..], b[..64], b[64..];
    Bmul64FullCorrect(a0, b0);
    Bmul64FullCorrect(a1, b1);
    Bmul64FullCorrect(a0, b1);
    Bmul64FullCorrect(a1, b0);
    LayoutCorrect(a, b, Bmul64Full(a0, b0), Bmul64Full(a1, b1), Bmul64Full(a0, b1), Bmul64Full(a1, b0));
  }

  /** `rev64(z) >> 1` */
  function High(z: Word): (r: Word)
    ensures ReversedHigh(r, z)
  {
    Rev64Correct(z);
    Shr(Rev64(z), 1)
  }

  /** The middle Karatsuba term: `(y0+y1)(h0+h1)` less the two outer products. */
  function Middle(y0: Word, y1: Word, h0: Word, h1: Word): Word {
    Xor(Bmul64(Xor(y0, y1), Xor(h0, h1)), Xor(Bmul64(y0, h0), Bmul64(y1, h1)))
  }

  /** Karatsuba product with every high half recovered through bit reversal. */
  function Clmul(a: Block, b: Block): (Block, Block) {
    var h0, h1, y0, y1 := a[..64], a[64..], b[..64], b[64..];
    var h0r, h1r, y0r, y1r := Rev64(h0), Rev64(h1), Rev64(y0), Rev64(y1);
    var z0, z1, z2 := Bmul64(y0, h0), Bmul64(y1, h1), Middle(y0, y1, h0, h1);
    var z0h, z1h := High(Bmul64(y0r, h0r)), High(Bmul64(y1r, h1r));
    var z2h := High(Middle(y0r, y1r, h0r, h1r));
    (z0 + Xor(z0h, z2), Xor(z1, z2h) + z1h)
  }

  lemma KaratsubaMiddle(h0: Word, h1: Word, y0: Word, y1: Word, s: int)
    ensures (ProductCoef(Xor(y0, y1), Xor(h0, h1), s) != (ProductCoef(y0, h0, s) != ProductCoef(y1, h1, s)))
         == (ProductCoef(h0, y1, s) != ProductCoef(h1, y0, s))
  {
    ProductLeftXor(y0, y1, Xor(h0, h1), s);
    ProductRightXor(y0, h0, h1, s);
    ProductRightXor(y1, h0, h1, s);
    ProductCommutes(h0, y1, s);
    ProductCommutes(h1, y0, s);
  }

  lemma MiddleBit(y0: Word, y1: Word, h0: Word, h1: Word, i: nat)
    requires i < 64
    ensures Middle(y0, y1, h0, h1)[i] == (ProductCoef(h0, y1, i) != ProductCoef(h1, y0, i))
  {
    KaratsubaMiddle(h0, h1, y0, y1, i);
    LowHalfBit(Xor(y0, y1), Xor(h0, h1), i);
    LowHalfBit(y0, h0, i);
    LowHalfBit(y1, h1, i);
  }

  lemma MiddleHighBit(y0: Word, y1: Word, h0: Word, h1: Word, i: nat)
    requires i < 64
    ensures High(Middle(Reverse(y0), Reverse(y1), Reverse(h0), Reverse(h1)))[i]
         == (ProductCoef(h0, y1, 64 + i) != ProductCoef(h1, y0, 64 + i))
  {
    if i == 63 {
      ProductDegree(h0, y1, 127);
      ProductDegree(h1, y0, 127);
    } else {
      MiddleBit(Reverse(y0), Reverse(y1), Reverse(h0), Reverse(h1), 62 - i);
      ProductReverse(h0, y1, 64 + i);
      ProductReverse(h1, y0, 64 + i);
    }
  }

  lemma OuterHighBit(y: Word, h: Word, z: Word, w: Word, i: nat)
    requires i < 64 && LowHalf(z, Reverse(y), Reverse(h)) && ReversedHigh(w, z)
    ensures w[i] == ProductCoef(h, y, 64 + i)
  {
    HighHalfBit(y, h, z, w, i);
    ProductCommutes(h, y, 64 + i);
  }

  /** The six Karatsuba words, bit by bit. */
  predicate KaratsubaWords(a: Block, b: Block, z0: Word, z1: Word, z2: Word, z0h: Word, z1h: Word, z2h: Word) {
    var h0, h1, y0, y1 := a[..64], a[64..], b[..64], b[64..];
    forall i | 0 <= i < 64 ::
      && z0[i] == ProductCoef(h0, y0, i) && z0h[i] == ProductCoef(h0, y0, 64 + i)
      && z1[i] == ProductCoef(h1, y1, i) && z1h[i] == ProductCoef(h1, y1, 64 + i)
      && z2[i] == (ProductCoef(h0, y1, i) != ProductCoef(h1, y0, i))
      && z2h[i] == (ProductCoef(h0, y1, 64 + i) != ProductCoef(h1, y0, 64 + i))
  }

  lemma KaratsubaLayout(a: Block, b: Block, z0: Word, z1: Word, z2: Word, z0h: Word, z1h: Word, z2h: Word)
    requires KaratsubaWords(a, b, z0, z1, z2, z0h, z1h, z2h)
    ensures (z0 + Xor(z0h, z2)) + (Xor(z1, z2h) + z1h) == Product(a, b)
  {
    var r := (z0 + Xor(z0h, z2)) + (Xor(z1, z2h) + z1h);
    var h0, h1, y0, y1 := a[..64], a[64..], b[..64], b[64..];
    forall s | 0 <= s < 256 ensures r[s] == ProductCoef(a, b, s) {
      HalvesProduct(a, b, s);
      NarrowDegrees(h0, h1, y0, y1, s);
      if s < 64 {
        assert r[s] == z0[s];
      } else if s < 128 {
        assert r[s] == Xor(z0h, z2)[s - 64];
      } else if s < 192 {
        assert r[s] == Xor(z1, z2h)[s - 128];
      } else {
        assert r[s] == z1h[s - 192];
      }
    }
  }

  lemma KaratsubaWord(h0: Word, h1: Word, y0: Word, y1: Word, i: nat)
    requires i < 64
    ensures Bmul64(y0, h0)[i] == ProductCoef(h0, y0, i) && Bmul64(y1, h1)[i] == ProductCoef(h1, y1, i)
  {
    LowHalfBit(y0, h0, i);
    LowHalfBit(y1, h1, i);
    ProductCommutes(h0, y0, i);
    ProductCommutes(h1, y1, i);
  }

  /** For all blocks, the two result blocks of `clmul` are the full 256-bit product. */
  lemma ClmulCorrect(a: Block, b: Block)
    ensures var (lo, hi) := Clmul(a, b); lo + hi == Product(a, b)
  {
    var h0, h1, y0, y1 := a[..64], a[64..], b[..64], b[64..];
    Rev64Correct(h0);
    Rev64Correct(h1);
    Rev64Correct(y0);
    Rev64Correct(y1);
    var z0, z1, z2 := Bmul64(y0, h0), Bmul64(y1, h1), Middle(y0, y1, h0, h1);
    var z0r, z1r := Bmul64(Reverse(y0), Reverse(h0)), Bmul64(Reverse(y1), Reverse(h1));
    Bmul64Low(Reverse(y0), Reverse(h0));
    Bmul64Low(Reverse(y1), Reverse(h1));
    var z0h, z1h := High(z0r), High(z1r);
    var z2h := High(Middle(Reverse(y0), Reverse(y1), Reverse(h0), Reverse(h1)));
    forall i | 0 <= i < 64
      ensures z0[i] == ProductCoef(h0, y0, i) && z0h[i] == ProductCoef(h0, y0, 64 + i)
      ensures z1[i] == ProductCoef(h1, y1, i) && z1h[i] == ProductCoef(h1, y1, 64 + i)
      ensures z2[i] == (ProductCoef(h0, y1, i) != ProductCoef(h1, y0, i))
      ensures z2h[i] == (ProductCoef(h0, y1, 64 + i) != ProductCoef(h1, y0, 64 + i))
    {
      KaratsubaWord(h0, h1, y0, y1, i);
      OuterHighBit(y0, h0, z0r, z0h, i);
      OuterHighBit(y1, h1, z1r, z1h, i);
      MiddleBit(y0, y1, h0, h1, i);
      MiddleHighBit(y0, y1, h0, h1, i);
    }
    KaratsubaLayout(a, b, z0, z1, z2, z0h, z1h, z2h);
  }

  lemma NarrowDegrees(h0: Word, h1: Word, y0: Word, y1: Word, s: int)
    ensures s >= 128 ==> !ProductCoef(h0, y0, s)
    ensures s < 128 ==> !ProductCoef(h1, y1, s - 128)
    ensures s < 64 || s >= 192 ==> !ProductCoef(h0, y1, s - 64) && !ProductCoef(h1, y0, s - 64)
  {
    if s >= 128 { ProductDegree(h0, y0, s); }
    if s < 128 { ProductDegree(h1, y1, s - 128); }
    if s < 64 || s >= 192 {
      ProductDegree(h0, y1, s - 64);
      ProductDegree(h1, y0, s - 64);
    }
  }

  // The masks as the constants they are written as.

  function Ones16(n: nat): nat {
    if n == 0 then 0 else 1 + 16 * Ones16(n - 1)
  }

  lemma {:induction false} LaneValue(w: Bits, k: nat, n: nat)
    requires k < 4 && |w| == 4 * n && forall i | 0 <= i < |w| :: w[i] == (i % 4 == k)
    ensures Value(w) == Pow2(k) * Ones16(n)
  {
    if n > 0 {
      var w1 := w[1..];
      var w2 := w1[1..];
      var w3 := w2[1..];
      LaneValue(w3[1..], k, n - 1);
      assert Value(w2) == (if w[2] then 1 else 0) + 2 * Value(w3);
      assert Value(w1) == (if w[1] then 1 else 0) + 2 * Value(w2);
      assert Pow2(0) == 1 && Pow2(1) == 2 && Pow2(2) == 4 && Pow2(3) == 8;
    }
  }

  /** The lane masks are the words 0x1111..., 0x2222..., 0x4444... and 0x8888... */
  lemma LaneMaskConstant(k: nat)
    requires k < 4
    ensures Value(LaneMask(k)) == Pow2(k) * 0x1111_1111_1111_1111
  {
    LaneValue(LaneMask(k), k, 16);
    assert Ones16(8) == 0x1111_1111;
    assert Ones16(16) == 0x1111_1111_1111_1111;
  }
}
