/** The QuickSilver consistency check and its VOLE mask. */
module ConsistencyCheck {
  import opened Results
  import opened Bits
  import opened Gf128

  datatype Triple = Triple(x: Block, y: Block, z: Block)

  datatype UV = UV(u: Block, v: Block)

  datatype CheckError = SVole | Invalid

  function DefaultTriple(): Triple {
    Triple(ZERO, ZERO, ZERO)
  }

  /** Number of triples per random stream. */
  const SEGMENT_SIZE := 512

  // VOLE over the extension field.

  /** The block whose only set bit is bit `i`. */
  function Monomial(i: nat): Block
    requires i < 128
  {
    Zeros(i) + [true] + Zeros(127 - i)
  }

  function Monomials(): seq<Block> {
    seq(128, i requires 0 <= i < 128 => Monomial(i))
  }

  function VoleSender(keys: seq<Block>): Block
    requires |keys| == 128
  {
    InnerProduct(keys, Monomials())
  }

  function VoleReceiver(choices: seq<bool>, ev: seq<Block>): (Block, Block)
    requires |choices| == 128 && |ev| == 128
  {
    (InnerProduct(ev, Monomials()), choices)
  }

  /** Correlated OT outputs: `ev[i] == keys[i] + choices[i]·delta`. */
  predicate Correlated(keys: seq<Block>, choices: seq<bool>, ev: seq<Block>, delta: Block) {
    |keys| == |choices| == |ev| == 128
    && forall i | 0 <= i < 128 :: ev[i] == Xor(keys[i], Scale(choices[i], delta))
  }

  lemma MulScale(c: bool, a: Block, b: Block)
    ensures Mul(Scale(c, a), b) == Scale(c, Mul(a, b))
    ensures Mul(a, Scale(c, b)) == Scale(c, Mul(a, b))
  {
    EvalLeftScale(c, a, b);
    EvalScale(a, c, b);
  }

  /** The sum of `a[i]·X^i` over `i < n`. */
  function PrefixSum(a: seq<Block>, n: nat): Block
    requires n <= |a| == 128
  {
    if n == 0 then ZERO else Xor(PrefixSum(a, n - 1), Mul(a[n - 1], Monomial(n - 1)))
  }

  lemma {:induction false} PrefixSumIsInner(a: seq<Block>, n: nat)
    requires n <= |a| == 128
    ensures XorSum(Products(a, Monomials())[..n]) == PrefixSum(a, n)
  {
    if n > 0 {
      PrefixSumIsInner(a, n - 1);
      assert Products(a, Monomials())[..n][..n - 1] == Products(a, Monomials())[..n - 1];
    }
  }

  /** The first `n` choice bits as a block. */
  function ChoiceBlock(choices: seq<bool>, n: nat): Block
    requires n <= |choices| == 128
  {
    choices[..n] + Zeros(128 - n)
  }

  lemma VoleStep(key: Block, c: bool, delta: Block, mono: Block)
    ensures Mul(Xor(key, Scale(c, delta)), mono) == Xor(Mul(key, mono), Mul(delta, Scale(c, mono)))
  {
    MulDistributes(mono, key, Scale(c, delta));
    MulScale(c, delta, mono);
  }

  lemma ChoiceStep(choices: seq<bool>, m: nat, delta: Block)
    requires m < |choices| == 128
    ensures Mul(delta, ChoiceBlock(choices, m + 1))
         == Xor(Mul(delta, ChoiceBlock(choices, m)), Mul(delta, Scale(choices[m], Monomial(m))))
  {
    var before, mono := ChoiceBlock(choices, m), Scale(choices[m], Monomial(m));
    assert ChoiceBlock(choices, m + 1) == Xor(before, mono);
    MulDistributes(delta, before, mono);
  }

  lemma {:induction false} VolePrefix(keys: seq<Block>, choices: seq<bool>, ev: seq<Block>, delta: Block, n: nat)
    requires n <= 128 && Correlated(keys, choices, ev, delta)
    ensures Xor(PrefixSum(keys, n), PrefixSum(ev, n)) == Mul(delta, ChoiceBlock(choices, n))
  {
    if n == 0 {
      EvalZero(delta);
      assert ChoiceBlock(choices, 0) == ZERO;
      assert Xor(ZERO, ZERO) == ZERO;
    } else {
      var m := n - 1;
      VolePrefix(keys, choices, ev, delta, m);
      VoleStep(keys[m], choices[m], delta, Monomial(m));
      ChoiceStep(choices, m, delta);
      FourTermXor(PrefixSum(keys, m), PrefixSum(ev, m), Mul(keys[m], Monomial(m)),
                  Mul(delta, Scale(choices[m], Monomial(m))));
    }
  }

  lemma FourTermXor(a: Block, b: Block, k: Block, d: Block)
    ensures Xor(Xor(a, k), Xor(b, Xor(k, d))) == Xor(Xor(a, b), d)
  {
    forall i | 0 <= i < 128 ensures Xor(Xor(a, k), Xor(b, Xor(k, d)))[i] == Xor(Xor(a, b), d)[i] {
    }
  }

  lemma FullPrefix(a: seq<Block>)
    requires |a| == 128
    ensures InnerProduct(a, Monomials()) == PrefixSum(a, |a|)
  {
    PrefixSumIsInner(a, |a|);
    TakeAll(Products(a, Monomials()));
  }

  lemma TakeAll<T>(s: seq<T>)
    ensures s[..|s|] == s
  {
  }

  /** The VOLE relation `B == A0 + delta·A1` for any correlated OTs. */
  lemma VoleCorrect(keys: seq<Block>, choices: seq<bool>, ev: seq<Block>, delta: Block)
    requires Correlated(keys, choices, ev, delta)
    ensures VoleSender(keys) == Xor(VoleReceiver(choices, ev).0, Mul(delta, VoleReceiver(choices, ev).1))
  {
    VolePrefix(keys, choices, ev, delta, |keys|);
    FullPrefix(keys);
    FullPrefix(ev);
    assert ChoiceBlock(choices, |keys|) == choices;
    XorMoves(PrefixSum(keys, |keys|), PrefixSum(ev, |ev|), Mul(delta, choices));
  }

  lemma XorMoves(a: Block, b: Block, c: Block)
    requires Xor(a, b) == c
    ensures a == Xor(b, c)
  {
    forall i | 0 <= i < 128 ensures a[i] == Xor(b, c)[i] {
      assert c[i] == (a[i] != b[i]);
    }
  }

  // One triple.

  function ProverTerms(t: Triple, chi: Block): (Block, Block) {
    var u := Mul(Mul(t.x, t.y), chi);
    var a10 := if t.x[0] then t.y else ZERO;
    var a11 := if t.y[0] then t.x else ZERO;
    (u, Mul(Xor(Xor(a10, a11), t.z), chi))
  }

  function VerifierTerm(t: Triple, chi: Block, delta: Block): Block {
    Mul(Xor(Mul(t.x, t.y), Mul(delta, t.z)), chi)
  }

  /** `mac` authenticates its least significant bit under `key`. */
  predicate Authenticates(mac: Block, key: Block, delta: Block) {
    mac == Xor(key, Scale(mac[0], delta))
  }

  predicate TripleAuthenticates(mac: Triple, key: Triple, delta: Block) {
    Authenticates(mac.x, key.x, delta) && Authenticates(mac.y, key.y, delta) && Authenticates(mac.z, key.z, delta)
  }

  /** The output bit is not the AND of the input bits. */
  predicate Bad(mac: Triple) {
    mac.z[0] != (mac.x[0] && mac.y[0])
  }

  /** `(kx + x·d)·(ky + y·d)` expanded. */
  lemma MacProduct(kx: Block, ky: Block, x: bool, y: bool, d: Block)
    ensures Mul(Xor(kx, Scale(x, d)), Xor(ky, Scale(y, d)))
         == Xor(Xor(Mul(kx, ky), Scale(y, Mul(d, kx))), Xor(Scale(x, Mul(d, ky)), Scale(x && y, Mul(d, d))))
  {
    var my := Xor(ky, Scale(y, d));
    MulDistributes(my, kx, Scale(x, d));
    MulScale(x, d, my);
    MulDistributes(kx, ky, Scale(y, d));
    MulDistributes(d, ky, Scale(y, d));
    MulScale(y, kx, d);
    MulScale(y, d, d);
    MulCommutes(kx, d);
    RegroupProduct(Mul(kx, ky), Mul(d, kx), Mul(d, ky), Mul(d, d), x, y);
  }

  lemma RegroupProduct(kk: Block, p: Block, q: Block, d: Block, x: bool, y: bool)
    ensures Xor(Xor(kk, Scale(y, p)), Scale(x, Xor(q, Scale(y, d))))
         == Xor(Xor(kk, Scale(y, p)), Xor(Scale(x, q), Scale(x && y, d)))
  {
    assert Scale(x, Xor(q, Scale(y, d))) == Xor(Scale(x, q), Scale(x && y, d));
  }

  /** `d·(x·my + y·mx + mz)` expanded. */
  lemma OpeningProduct(kx: Block, ky: Block, kz: Block, x: bool, y: bool, z: bool, d: Block)
    ensures var mx, my, mz := Xor(kx, Scale(x, d)), Xor(ky, Scale(y, d)), Xor(kz, Scale(z, d));
            Mul(d, Xor(Xor(Scale(x, my), Scale(y, mx)), mz))
            == Xor(Xor(Scale(x, Mul(d, ky)), Scale(y, Mul(d, kx))), Xor(Mul(d, kz), Scale(z, Mul(d, d))))
  {
    var mx, my, mz := Xor(kx, Scale(x, d)), Xor(ky, Scale(y, d)), Xor(kz, Scale(z, d));
    MulDistributes(d, Xor(Scale(x, my), Scale(y, mx)), mz);
    MulDistributes(d, Scale(x, my), Scale(y, mx));
    MulScale(x, d, my);
    MulScale(y, d, mx);
    MulDistributes(d, ky, Scale(y, d));
    MulDistributes(d, kx, Scale(x, d));
    MulDistributes(d, kz, Scale(z, d));
    MulScale(x, d, d);
    MulScale(y, d, d);
    MulScale(z, d, d);
    RegroupOpening(Mul(d, kx), Mul(d, ky), Mul(d, kz), Mul(d, d), x, y, z);
  }

  lemma RegroupOpening(p: Block, q: Block, r: Block, d: Block, x: bool, y: bool, z: bool)
    ensures Xor(Xor(Scale(x, Xor(q, Scale(y, d))), Scale(y, Xor(p, Scale(x, d)))), Xor(r, Scale(z, d)))
         == Xor(Xor(Scale(x, q), Scale(y, p)), Xor(r, Scale(z, d)))
  {
    assert Xor(Scale(x, Xor(q, Scale(y, d))), Scale(y, Xor(p, Scale(x, d)))) == Xor(Scale(x, q), Scale(y, p));
  }

  /** Before weighting by `chi`, a triple's residual is `delta²` if it is bad and zero otherwise. */
  lemma TripleResidual(mac: Triple, key: Triple, delta: Block)
    requires TripleAuthenticates(mac, key, delta)
    ensures var opening := Xor(Xor(Scale(mac.x[0], mac.y), Scale(mac.y[0], mac.x)), mac.z);
            Xor(Xor(Mul(key.x, key.y), Mul(delta, key.z)), Xor(Mul(mac.x, mac.y), Mul(delta, opening)))
            == Scale(Bad(mac), Mul(delta, delta))
  {
    var x, y, z := mac.x[0], mac.y[0], mac.z[0];
    MacProduct(key.x, key.y, x, y, delta);
    OpeningProduct(key.x, key.y, key.z, x, y, z, delta);
    var opening := Xor(Xor(Scale(x, mac.y), Scale(y, mac.x)), mac.z);
    CancelTerms(Mul(key.x, key.y), Mul(delta, key.x), Mul(delta, key.y), Mul(delta, key.z), Mul(delta, delta), x, y, z);
  }

  lemma CancelTerms(kk: Block, p: Block, q: Block, r: Block, d: Block, x: bool, y: bool, z: bool)
    ensures Xor(Xor(kk, r), Xor(Xor(Xor(kk, Scale(y, p)), Xor(Scale(x, q), Scale(x && y, d))),
                                Xor(Xor(Scale(x, q), Scale(y, p)), Xor(r, Scale(z, d)))))
         == Scale(z != (x && y), d)
  {
    var l := Xor(Xor(kk, r), Xor(Xor(Xor(kk, Scale(y, p)), Xor(Scale(x, q), Scale(x && y, d))),
                                 Xor(Xor(Scale(x, q), Scale(y, p)), Xor(r, Scale(z, d)))));
    forall i | 0 <= i < 128 ensures l[i] == Scale(z != (x && y), d)[i] {
    }
  }

  /** Weighted by `chi`: `w + u + delta·v == [bad]·chi·delta²`. */
  lemma TermResidual(mac: Triple, key: Triple, delta: Block, chi: Block)
    requires TripleAuthenticates(mac, key, delta)
    ensures var (u, v) := ProverTerms(mac, chi);
            Xor(VerifierTerm(key, chi, delta), Xor(u, Mul(delta, v)))
            == Scale(Bad(mac), Mul(Mul(delta, delta), chi))
  {
    var (u, v) := ProverTerms(mac, chi);
    var opening := Xor(Xor(Scale(mac.x[0], mac.y), Scale(mac.y[0], mac.x)), mac.z);
    TripleResidual(mac, key, delta);
    MulAssociates(delta, opening, chi);
    var w, xy, dv := Xor(Mul(key.x, key.y), Mul(delta, key.z)), Mul(mac.x, mac.y), Mul(delta, opening);
    MulDistributes(chi, xy, dv);
    MulDistributes(chi, w, Xor(xy, dv));
    MulScale(Bad(mac), Mul(delta, delta), chi);
  }

  // All triples, each weighted by its own random coefficient.

  /** The coefficient of triple `n`: position `n % 512` of random stream `n / 512`. */
  function Chi(rng: (nat, nat, nat) -> Block, seed: nat, n: nat): Block {
    rng(seed, n / SEGMENT_SIZE, n % SEGMENT_SIZE)
  }

  /** Triple `512·q + r` takes value `r` of stream `q`. */
  lemma ChiStream(rng: (nat, nat, nat) -> Block, seed: nat, q: nat, r: nat)
    requires r < 512
    ensures Chi(rng, seed, 512 * q + r) == rng(seed, q, r)
  {
    DivModUnique(512 * q + r, 512, q, r);
  }

  function ProverSum(ts: seq<Triple>, rng: (nat, nat, nat) -> Block, seed: nat): (Block, Block) {
    if ts == [] then (ZERO, ZERO)
    else
      var n := |ts| - 1;
      var acc, term := ProverSum(ts[..n], rng, seed), ProverTerms(ts[n], Chi(rng, seed, n));
      (Xor(acc.0, term.0), Xor(acc.1, term.1))
  }

  function VerifierSum(ts: seq<Triple>, rng: (nat, nat, nat) -> Block, seed: nat, delta: Block): Block {
    if ts == [] then ZERO
    else
      var n := |ts| - 1;
      Xor(VerifierSum(ts[..n], rng, seed, delta), VerifierTerm(ts[n], Chi(rng, seed, n), delta))
  }

  /** XOR of the coefficients of exactly the bad triples. */
  function BadSum(ts: seq<Triple>, rng: (nat, nat, nat) -> Block, seed: nat): Block {
    if ts == [] then ZERO
    else
      var n := |ts| - 1;
      Xor(BadSum(ts[..n], rng, seed), Scale(Bad(ts[n]), Chi(rng, seed, n)))
  }

  predicate AllAuthenticate(macs: seq<Triple>, keys: seq<Triple>, delta: Block) {
    |macs| == |keys| && forall i | 0 <= i < |macs| :: TripleAuthenticates(macs[i], keys[i], delta)
  }

  /** `w + u + delta·v == delta²·BadSum`, for any number of authenticated triples. */
  lemma {:induction false} ResidualSum(macs: seq<Triple>, keys: seq<Triple>, delta: Block,
                                       rng: (nat, nat, nat) -> Block, seed: nat)
    requires AllAuthenticate(macs, keys, delta)
    ensures var (u, v) := ProverSum(macs, rng, seed);
            Xor(VerifierSum(keys, rng, seed, delta), Xor(u, Mul(delta, v)))
            == Mul(Mul(delta, delta), BadSum(macs, rng, seed))
  {
    if macs == [] {
      EvalZero(delta);
      EvalZero(Mul(delta, delta));
      assert Xor(ZERO, Xor(ZERO, ZERO)) == ZERO;
    } else {
      var n := |macs| - 1;
      var chi := Chi(rng, seed, n);
      ResidualSum(macs[..n], keys[..n], delta, rng, seed);
      TermResidual(macs[n], keys[n], delta, chi);
      var (u, v) := ProverSum(macs[..n], rng, seed);
      var (du, dv) := ProverTerms(macs[n], chi);
      MulDistributes(delta, v, dv);
      BadStep(BadSum(macs[..n], rng, seed), Bad(macs[n]), chi, Mul(delta, delta));
      Interleave(VerifierSum(keys[..n], rng, seed, delta), u, Mul(delta, v), VerifierTerm(keys[n], chi, delta), du,
                 Mul(delta, dv));
    }
  }

  lemma BadStep(acc: Block, c: bool, chi: Block, d: Block)
    ensures Mul(d, Xor(acc, Scale(c, chi))) == Xor(Mul(d, acc), Scale(c, Mul(d, chi)))
  {
    MulDistributes(d, acc, Scale(c, chi));
    MulScale(c, d, chi);
  }

  lemma Interleave(w: Block, u: Block, v: Block, w': Block, u': Block, v': Block)
    ensures Xor(Xor(w, w'), Xor(Xor(u, u'), Xor(v, v'))) == Xor(Xor(w, Xor(u, v)), Xor(w', Xor(u', v')))
  {
    forall i | 0 <= i < 128
      ensures Xor(Xor(w, w'), Xor(Xor(u, u'), Xor(v, v')))[i] == Xor(Xor(w, Xor(u, v)), Xor(w', Xor(u', v')))[i]
    {
    }
  }

  lemma {:induction false} BadSumZero(ts: seq<Triple>, rng: (nat, nat, nat) -> Block, seed: nat)
    requires forall i | 0 <= i < |ts| :: !Bad(ts[i])
    ensures BadSum(ts, rng, seed) == ZERO
  {
    if ts != [] {
      BadSumZero(ts[..|ts| - 1], rng, seed);
      assert Xor(ZERO, ZERO) == ZERO;
    }
  }

  // The two messages of the check.

  function ProverMessage(macs: seq<Triple>, rng: (nat, nat, nat) -> Block, seed: nat, choices: seq<bool>,
                         ev: seq<Block>): UV
    requires |choices| == 128 && |ev| == 128
  {
    var (u, v) := ProverSum(macs, rng, seed);
    var (a0, a1) := VoleReceiver(choices, ev);
    UV(Xor(u, a0), Xor(v, a1))
  }

  predicate VerifierAccepts(keys: seq<Triple>, rng: (nat, nat, nat) -> Block, seed: nat, delta: Block,
                            svoleKeys: seq<Block>, uv: UV)
    requires |svoleKeys| == 128
  {
    Xor(VerifierSum(keys, rng, seed, delta), VoleSender(svoleKeys)) == Xor(uv.u, Mul(delta, uv.v))
  }

  /** With correlated masks the verifier accepts exactly when the bad coefficients cancel. */
  lemma AcceptsIff(macs: seq<Triple>, keys: seq<Triple>, delta: Block, rng: (nat, nat, nat) -> Block, seed: nat,
                   choices: seq<bool>, ev: seq<Block>, svoleKeys: seq<Block>)
    requires AllAuthenticate(macs, keys, delta) && Correlated(svoleKeys, choices, ev, delta)
    ensures VerifierAccepts(keys, rng, seed, delta, svoleKeys, ProverMessage(macs, rng, seed, choices, ev))
       <==> Mul(Mul(delta, delta), BadSum(macs, rng, seed)) == ZERO
    ensures (forall i | 0 <= i < |macs| :: !Bad(macs[i]))
        ==> VerifierAccepts(keys, rng, seed, delta, svoleKeys, ProverMessage(macs, rng, seed, choices, ev))
  {
    ResidualSum(macs, keys, delta, rng, seed);
    VoleCorrect(svoleKeys, choices, ev, delta);
    var (u, v) := ProverSum(macs, rng, seed);
    var (a0, a1) := VoleReceiver(choices, ev);
    MulDistributes(delta, v, a1);
    MaskCancels(VerifierSum(keys, rng, seed, delta), u, Mul(delta, v), a0, Mul(delta, a1));
    if forall i | 0 <= i < |macs| :: !Bad(macs[i]) {
      BadSumZero(macs, rng, seed);
      EvalZero(Mul(delta, delta));
    }
  }

  /** If delta is invertible, nothing but a zero sum of the bad coefficients is accepted. */
  lemma AcceptsIffBadSumZero(macs: seq<Triple>, keys: seq<Triple>, delta: Block, rng: (nat, nat, nat) -> Block,
                             seed: nat, choices: seq<bool>, ev: seq<Block>, svoleKeys: seq<Block>)
    requires AllAuthenticate(macs, keys, delta) && Correlated(svoleKeys, choices, ev, delta) && Invertible(delta)
    ensures VerifierAccepts(keys, rng, seed, delta, svoleKeys, ProverMessage(macs, rng, seed, choices, ev))
       <==> BadSum(macs, rng, seed) == ZERO
  {
    AcceptsIff(macs, keys, delta, rng, seed, choices, ev, svoleKeys);
    var bad := BadSum(macs, rng, seed);
    MulAssociates(delta, delta, bad);
    InvertibleCancels(delta, Mul(delta, bad));
    InvertibleCancels(delta, bad);
  }

  lemma {:induction false} OneBadSum(ts: seq<Triple>, rng: (nat, nat, nat) -> Block, seed: nat, k: nat)
    requires k < |ts| && forall i | 0 <= i < |ts| :: Bad(ts[i]) <==> i == k
    ensures BadSum(ts, rng, seed) == Chi(rng, seed, k)
  {
    var n := |ts| - 1;
    if k < n {
      OneBadSum(ts[..n], rng, seed, k);
      XorZero(Chi(rng, seed, k));
    } else {
      BadSumZero(ts[..n], rng, seed);
      assert Xor(ZERO, Chi(rng, seed, k)) == Chi(rng, seed, k);
    }
  }

  /** One bad triple is caught unless its random coefficient is zero. */
  lemma OneBadRejected(macs: seq<Triple>, keys: seq<Triple>, delta: Block, rng: (nat, nat, nat) -> Block,
                       seed: nat, choices: seq<bool>, ev: seq<Block>, svoleKeys: seq<Block>, k: nat)
    requires AllAuthenticate(macs, keys, delta) && Correlated(svoleKeys, choices, ev, delta) && Invertible(delta)
    requires k < |macs| && forall i | 0 <= i < |macs| :: Bad(macs[i]) <==> i == k
    ensures VerifierAccepts(keys, rng, seed, delta, svoleKeys, ProverMessage(macs, rng, seed, choices, ev))
       <==> Chi(rng, seed, k) == ZERO
  {
    AcceptsIffBadSumZero(macs, keys, delta, rng, seed, choices, ev, svoleKeys);
    OneBadSum(macs, rng, seed, k);
  }

  lemma MaskCancels(w: Block, u: Block, dv: Block, a0: Block, da1: Block)
    ensures Xor(w, Xor(a0, da1)) == Xor(Xor(u, a0), Xor(dv, da1)) <==> Xor(w, Xor(u, dv)) == ZERO
  {
    var l, r, z := Xor(w, Xor(a0, da1)), Xor(Xor(u, a0), Xor(dv, da1)), Xor(w, Xor(u, dv));
    assert forall i | 0 <= i < 128 :: z[i] == (l[i] != r[i]);
  }

  // The accumulator both parties keep.

  class Check {
    var triples: seq<Triple>
    var adjust: seq<bool>

    constructor ()
      ensures triples == [] && adjust == []
    {
      triples, adjust := [], [];
    }

    /** Reserves room for `n` gates and returns where it starts. */
    method Reserve(n: nat) returns (idx: nat)
      modifies this
      ensures idx == old(|triples|)
      ensures triples == old(triples) + seq(n, _ => DefaultTriple())
      ensures adjust == Resized(old(adjust), idx + n)
    {
      idx := |triples|;
      triples := triples + seq(n, _ => DefaultTriple());
      adjust := Resized(adjust, idx + n);
    }

    method Write(idx: nat, ts: seq<Triple>, bits: seq<bool>)
      requires idx + |ts| <= |triples| && idx + |ts| <= |adjust| && |bits| == |ts|
      modifies this
      ensures triples == Overwritten(old(triples), idx, ts)
      ensures adjust == Overwritten(old(adjust), idx, bits)
    {
      triples := triples[..idx] + ts + triples[idx + |ts|..];
      adjust := adjust[..idx] + bits + adjust[idx + |bits|..];
    }

    /** Computes the prover's message; the triples are consumed even on error. */
    method CheckProver(transcript: seq<Bits>, hash: seq<Bits> -> nat, rng: (nat, nat, nat) -> Block,
                       choices: seq<bool>, ev: seq<Block>)
      returns (r: Result<UV, CheckError>, transcript': seq<Bits>)
      modifies this
      ensures triples == []
      ensures r.Ok? <==> |choices| == 128 && |ev| == 128
      ensures r.Err? ==> r.error == SVole && adjust == old(adjust) && transcript' == transcript + [old(adjust)]
      ensures r.Ok? ==> r.value == ProverMessage(old(triples), rng, hash(transcript + [old(adjust)]), choices, ev)
      ensures r.Ok? ==> adjust == [] && transcript' == transcript + [old(adjust), r.value.u, r.value.v]
    {
      r, transcript' := ProverReply(triples, adjust, transcript, hash, rng, choices, ev);
      triples := [];
      if r.Ok? {
        adjust := [];
      }
    }

    method CheckVerifier(transcript: seq<Bits>, hash: seq<Bits> -> nat, rng: (nat, nat, nat) -> Block,
                         delta: Block, svoleKeys: seq<Block>, uv: UV)
      returns (r: Result<(), CheckError>, transcript': seq<Bits>)
      modifies this
      ensures triples == []
      ensures |svoleKeys| != 128
          ==> r == Err(SVole) && adjust == old(adjust) && transcript' == transcript + [old(adjust)]
      ensures |svoleKeys| == 128 ==>
        && r == (if VerifierAccepts(old(triples), rng, hash(transcript + [old(adjust)]), delta, svoleKeys, uv)
                 then Ok(()) else Err(Invalid))
        && adjust == [] && transcript' == transcript + [old(adjust), uv.u, uv.v]
    {
      r, transcript' := VerifierReply(triples, adjust, transcript, hash, rng, delta, svoleKeys, uv);
      triples := [];
      if |svoleKeys| == 128 {
        adjust := [];
      }
    }
  }

  lemma Appended(transcript: seq<Bits>, a: Bits, b: Bits, c: Bits)
    ensures (transcript + [a]) + [b, c] == transcript + [a, b, c]
  {
  }

  /** What the prover sends: its sums, weighted by coefficients drawn from the transcript, under the VOLE mask. */
  method ProverReply(ts: seq<Triple>, adjust: seq<bool>, transcript: seq<Bits>, hash: seq<Bits> -> nat,
                     rng: (nat, nat, nat) -> Block, choices: seq<bool>, ev: seq<Block>)
    returns (r: Result<UV, CheckError>, transcript': seq<Bits>)
    ensures r.Ok? <==> |choices| == 128 && |ev| == 128
    ensures r.Err? ==> r.error == SVole && transcript' == transcript + [adjust]
    ensures r.Ok? ==> r.value == ProverMessage(ts, rng, hash(transcript + [adjust]), choices, ev)
    ensures r.Ok? ==> transcript' == transcript + [adjust, r.value.u, r.value.v]
  {
    transcript' := transcript + [adjust];
    var seed := hash(transcript');
    var u, v := ProcessProver(ts, rng, seed);
    if |choices| != 128 || |ev| != 128 {
      return Err(SVole), transcript';
    }
    var uv := MaskedMessage(u, v, choices, ev, ts, rng, seed);
    Appended(transcript, adjust, uv.u, uv.v);
    r, transcript' := Ok(uv), transcript' + [uv.u, uv.v];
  }

  /** The verifier's verdict on the prover's message. */
  method VerifierReply(ts: seq<Triple>, adjust: seq<bool>, transcript: seq<Bits>, hash: seq<Bits> -> nat,
                       rng: (nat, nat, nat) -> Block, delta: Block, svoleKeys: seq<Block>, uv: UV)
    returns (r: Result<(), CheckError>, transcript': seq<Bits>)
    ensures |svoleKeys| != 128 ==> r == Err(SVole) && transcript' == transcript + [adjust]
    ensures |svoleKeys| == 128 ==>
      && r == (if VerifierAccepts(ts, rng, hash(transcript + [adjust]), delta, svoleKeys, uv) then Ok(())
        else Err(Invalid))
      && transcript' == transcript + [adjust, uv.u, uv.v]
  {
    transcript' := transcript + [adjust];
    var seed := hash(transcript');
    var w := ProcessVerifier(ts, rng, seed, delta);
    if |svoleKeys| != 128 {
      return Err(SVole), transcript';
    }
    r := Verdict(w, delta, svoleKeys, uv, ts, rng, seed);
    Appended(transcript, adjust, uv.u, uv.v);
    transcript' := transcript' + [uv.u, uv.v];
  }

  /** The prover's last step: its sums under the VOLE mask. */
  method MaskedMessage(u: Block, v: Block, choices: seq<bool>, ev: seq<Block>, ghost ts: seq<Triple>,
                       ghost rng: (nat, nat, nat) -> Block, ghost seed: nat)
    returns (uv: UV)
    requires |choices| == 128 && |ev| == 128 && (u, v) == ProverSum(ts, rng, seed)
    ensures uv == ProverMessage(ts, rng, seed, choices, ev)
  {
    var (a0, a1) := VoleReceiver(choices, ev);
    uv := UV(Xor(u, a0), Xor(v, a1));
  }

  /** The verifier's last step: its masked sum against the prover's message. */
  method Verdict(w: Block, delta: Block, svoleKeys: seq<Block>, uv: UV, ghost ts: seq<Triple>,
                 ghost rng: (nat, nat, nat) -> Block, ghost seed: nat)
    returns (r: Result<(), CheckError>)
    requires |svoleKeys| == 128 && w == VerifierSum(ts, rng, seed, delta)
    ensures r == if VerifierAccepts(ts, rng, seed, delta, svoleKeys, uv) then Ok(()) else Err(Invalid)
  {
    var w' := Xor(w, VoleSender(svoleKeys));
    r := if w' != Xor(uv.u, Mul(delta, uv.v)) then Err(Invalid) else Ok(());
  }

  function Resized(bits: seq<bool>, n: nat): seq<bool> {
    if n <= |bits| then bits[..n] else bits + seq(n - |bits|, _ => false)
  }

  function Overwritten<T>(s: seq<T>, idx: nat, part: seq<T>): seq<T>
    requires idx + |part| <= |s|
  {
    s[..idx] + part + s[idx + |part|..]
  }

  /** The stream and offset of a triple within an aligned segment give its coefficient. */
  lemma SegmentChi(rng: (nat, nat, nat) -> Block, seed: nat, stream: nat, start: nat, j: nat)
    requires start == stream * SEGMENT_SIZE && start <= j < start + SEGMENT_SIZE
    ensures rng(seed, stream, j - start) == Chi(rng, seed, j)
  {
    DivModUnique(j, SEGMENT_SIZE, stream, j - start);
  }

  /** Appending a term to a running pair of segment sums. */
  lemma PairAssociates(u: Block, v: Block, uAcc: Block, vAcc: Block, du: Block, dv: Block)
    ensures (Xor(Xor(u, uAcc), du), Xor(Xor(v, vAcc), dv)) == (Xor(u, Xor(uAcc, du)), Xor(v, Xor(vAcc, dv)))
  {
    XorAssociates(u, uAcc, du);
    XorAssociates(v, vAcc, dv);
  }

  lemma ProverSumStep(ts: seq<Triple>, rng: (nat, nat, nat) -> Block, seed: nat, j: nat)
    requires j < |ts|
    ensures var (u, v) := ProverSum(ts[..j], rng, seed);
            var (du, dv) := ProverTerms(ts[j], Chi(rng, seed, j));
            ProverSum(ts[..j + 1], rng, seed) == (Xor(u, du), Xor(v, dv))
  {
    assert ts[..j + 1][..j] == ts[..j];
  }

  method ProverSegment(ts: seq<Triple>, rng: (nat, nat, nat) -> Block, seed: nat, stream: nat, start: nat, end: nat)
    returns (uAcc: Block, vAcc: Block)
    requires start == stream * SEGMENT_SIZE && start <= end <= |ts| && end <= start + SEGMENT_SIZE
    ensures var (u, v) := ProverSum(ts[..start], rng, seed);
            ProverSum(ts[..end], rng, seed) == (Xor(u, uAcc), Xor(v, vAcc))
  {
    ghost var (u, v) := ProverSum(ts[..start], rng, seed);
    uAcc, vAcc := ZERO, ZERO;
    XorZero(u);
    XorZero(v);
    for j := start to end
      invariant ProverSum(ts[..j], rng, seed) == (Xor(u, uAcc), Xor(v, vAcc))
    {
      SegmentChi(rng, seed, stream, start, j);
      ProverSumStep(ts, rng, seed, j);
      var (du, dv) := ProverTerms(ts[j], rng(seed, stream, j - start));
      PairAssociates(u, v, uAcc, vAcc, du, dv);
      uAcc, vAcc := Xor(uAcc, du), Xor(vAcc, dv);
    }
  }

  /** Segment by segment, each on its own random stream, XORing the segment totals. */
  method ProcessProver(ts: seq<Triple>, rng: (nat, nat, nat) -> Block, seed: nat) returns (u: Block, v: Block)
    ensures (u, v) == ProverSum(ts, rng, seed)
  {
    u, v := ZERO, ZERO;
    var start, stream := 0, 0;
    assert ts[..0] == [];
    while start < |ts|
      invariant start <= |ts| && (start == stream * SEGMENT_SIZE || start == |ts|)
      invariant (u, v) == ProverSum(ts[..start], rng, seed)
    {
      var end := if start + SEGMENT_SIZE <= |ts| then start + SEGMENT_SIZE else |ts|;
      var uAcc, vAcc := ProverSegment(ts, rng, seed, stream, start, end);
      u, v := Xor(u, uAcc), Xor(v, vAcc);
      start, stream := end, stream + 1;
    }
    assert ts[..|ts|] == ts;
  }

  lemma VerifierSumStep(ts: seq<Triple>, rng: (nat, nat, nat) -> Block, seed: nat, delta: Block, j: nat, w: Block,
                        wAcc: Block)
    requires j < |ts| && VerifierSum(ts[..j], rng, seed, delta) == Xor(w, wAcc)
    ensures VerifierSum(ts[..j + 1], rng, seed, delta)
         == Xor(w, Xor(wAcc, VerifierTerm(ts[j], Chi(rng, seed, j), delta)))
  {
    assert ts[..j + 1][..j] == ts[..j];
    XorAssociates(w, wAcc, VerifierTerm(ts[j], Chi(rng, seed, j), delta));
  }

  method VerifierSegment(ts: seq<Triple>, rng: (nat, nat, nat) -> Block, seed: nat, delta: Block, stream: nat,
                         start: nat, end: nat)
    returns (wAcc: Block)
    requires start == stream * SEGMENT_SIZE && start <= end <= |ts| && end <= start + SEGMENT_SIZE
    ensures VerifierSum(ts[..end], rng, seed, delta) == Xor(VerifierSum(ts[..start], rng, seed, delta), wAcc)
  {
    ghost var w := VerifierSum(ts[..start], rng, seed, delta);
    wAcc := ZERO;
    XorZero(w);
    for j := start to end
      invariant VerifierSum(ts[..j], rng, seed, delta) == Xor(w, wAcc)
    {
      SegmentChi(rng, seed, stream, start, j);
      VerifierSumStep(ts, rng, seed, delta, j, w, wAcc);
      wAcc := Xor(wAcc, VerifierTerm(ts[j], rng(seed, stream, j - start), delta));
    }
  }

  method ProcessVerifier(ts: seq<Triple>, rng: (nat, nat, nat) -> Block, seed: nat, delta: Block) returns (w: Block)
    ensures w == VerifierSum(ts, rng, seed, delta)
  {
    w := ZERO;
    var start, stream := 0, 0;
    assert ts[..0] == [];
    while start < |ts|
      invariant start <= |ts| && (start == stream * SEGMENT_SIZE || start == |ts|)
      invariant w == VerifierSum(ts[..start], rng, seed, delta)
    {
      var end := if start + SEGMENT_SIZE <= |ts| then start + SEGMENT_SIZE else |ts|;
      var wAcc := VerifierSegment(ts, rng, seed, delta, stream, start, end);
      w := Xor(w, wAcc);
      start, stream := end, stream + 1;
    }
    assert ts[..|ts|] == ts;
  }
}
