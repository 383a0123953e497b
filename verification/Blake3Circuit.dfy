/** The BLAKE3 compression circuit against the word-level compression function. */
module Blake3Circuit {
  import opened Bits
  import opened Circuits
  import opened Builder
  import opened CircuitOps

  // Word-level compression.

  /** Rightward rotation of a word by `k` bits. */
  function RotateRight(x: Bits, k: nat): Bits
    requires k <= |x|
  {
    x[k..] + x[..k]
  }

  /** On values, rotation divides by 2^k and puts the remainder on top. */
  lemma RotateRightValue(x: Bits, k: nat)
    requires k <= |x|
    ensures Value(RotateRight(x, k)) == Value(x) / Pow2(k) + Scaled(Value(x) % Pow2(k), |x| - k)
  {
    var low, high := x[..k], x[k..];
    assert x == low + high;
    ValueConcat(low, high);
    ValueConcat(high, low);
    ValueBound(low);
    ScaledIsTimes(Value(high), k);
    DivModUnique(Value(x), Pow2(k), Value(high), Value(low));
  }

  /** The four words of a quarter round. */
  datatype Quad<T> = Quad(a: T, b: T, c: T, d: T)

  predicate Wide(q: Quad<Bits>) {
    |q.a| == 32 && |q.b| == 32 && |q.c| == 32 && |q.d| == 32
  }

  /** Half of the BLAKE3 quarter round: one message word, rotations `r` and `s`. */
  function HalfMix(q: Quad<Bits>, m: Bits, r: nat, s: nat): (q': Quad<Bits>)
    requires Wide(q) && |m| == 32 && r <= 32 && s <= 32
    ensures Wide(q')
  {
    var a := AddWords(AddWords(q.a, q.b), m);
    var d := RotateRight(Xor(q.d, a), r);
    var c := AddWords(q.c, d);
    var b := RotateRight(Xor(q.b, c), s);
    Quad(a, b, c, d)
  }

  /** Sixteen 32-bit words. */
  predicate Words16(s: seq<Bits>) {
    |s| == 16 && forall i | 0 <= i < 16 :: |s[i]| == 32
  }

  /** Four distinct word positions. */
  predicate Positions(p: Quad<nat>) {
    p.a < 16 && p.b < 16 && p.c < 16 && p.d < 16
    && p.a != p.b && p.a != p.c && p.a != p.d && p.b != p.c && p.b != p.d && p.c != p.d
  }

  function MixWords(s: seq<Bits>, m: seq<Bits>, p: Quad<nat>, x: nat, y: nat): (r: seq<Bits>)
    requires Words16(s) && Words16(m) && Positions(p) && x < 16 && y < 16
    ensures Words16(r)
  {
    var q := HalfMix(HalfMix(Quad(s[p.a], s[p.b], s[p.c], s[p.d]), m[x], 16, 12), m[y], 8, 7);
    s[p.a := q.a][p.b := q.b][p.c := q.c][p.d := q.d]
  }

  /** One call of `mix`: four state positions and two message positions. */
  datatype MixStep = MixStep(p: Quad<nat>, x: nat, y: nat)

  predicate StepsOk(steps: seq<MixStep>) {
    forall i | 0 <= i < |steps| :: Positions(steps[i].p) && steps[i].x < 16 && steps[i].y < 16
  }

  /** A round mixes the four columns, then the four diagonals. */
  function RoundSteps(): (steps: seq<MixStep>)
    ensures StepsOk(steps)
  {
    [ MixStep(Quad(0, 4, 8, 12), 0, 1), MixStep(Quad(1, 5, 9, 13), 2, 3),
      MixStep(Quad(2, 6, 10, 14), 4, 5), MixStep(Quad(3, 7, 11, 15), 6, 7),
      MixStep(Quad(0, 5, 10, 15), 8, 9), MixStep(Quad(1, 6, 11, 12), 10, 11),
      MixStep(Quad(2, 7, 8, 13), 12, 13), MixStep(Quad(3, 4, 9, 14), 14, 15) ]
  }

  function MixAll(s: seq<Bits>, m: seq<Bits>, steps: seq<MixStep>): (r: seq<Bits>)
    requires Words16(s) && Words16(m) && StepsOk(steps)
    ensures Words16(r)
  {
    if steps == [] then s
    else
      var t := steps[|steps| - 1];
      MixWords(MixAll(s, m, steps[..|steps| - 1]), m, t.p, t.x, t.y)
  }

  function Permute<T>(m: seq<T>): (r: seq<T>)
    requires |m| == 16
    ensures |r| == 16
  {
    [m[2], m[6], m[3], m[10], m[7], m[0], m[4], m[13], m[1], m[11], m[12], m[5], m[9], m[14], m[15], m[8]]
  }

  /** The message words used in round `n`. */
  function Schedule(m: seq<Bits>, n: nat): (r: seq<Bits>)
    requires Words16(m)
    ensures Words16(r)
  {
    if n == 0 then m else Permute(Schedule(m, n - 1))
  }

  /** `n` rounds. */
  function Rounds(s: seq<Bits>, m: seq<Bits>, n: nat): (r: seq<Bits>)
    requires Words16(s) && Words16(m)
    ensures Words16(r)
  {
    if n == 0 then s
    else
      var k := Schedule(m, n - 1);
      MixAll(Rounds(s, m, n - 1), k, RoundSteps())
  }

  /** The first half is XORed with the second, the second with the first half of the initial state. */
  function FeedForward(t: seq<Bits>, s: seq<Bits>): (r: seq<Bits>)
    requires Words16(t) && Words16(s)
    ensures Words16(r)
  {
    seq(16, i requires 0 <= i < 16 => if i < 8 then Xor(t[i], t[i + 8]) else Xor(t[i], s[i - 8]))
  }

  const ROUNDS: nat := 7

  /** The full 16-word output of the seven-round compression function. */
  function CompressWords(m: seq<Bits>, s: seq<Bits>): (r: seq<Bits>)
    requires Words16(s) && Words16(m)
    ensures Words16(r)
  {
    FeedForward(Rounds(s, m, ROUNDS), s)
  }

  // The same over nodes.

  predicate NodeWord(x: seq<nat>, feedId: nat) {
    |x| == 32 && InRange(x, feedId)
  }

  predicate NodeQuad(q: Quad<seq<nat>>, feedId: nat) {
    NodeWord(q.a, feedId) && NodeWord(q.b, feedId) && NodeWord(q.c, feedId) && NodeWord(q.d, feedId)
  }

  predicate QuadVariables(q: Quad<seq<nat>>) {
    Variables(q.a) && Variables(q.b) && Variables(q.c) && Variables(q.d)
  }

  /** No word has a constant bit, so no gate is folded away. */
  predicate NoConstants(s: seq<seq<nat>>) {
    forall i | 0 <= i < |s| :: Variables(s[i])
  }

  function QuadValues(w: nat -> bool, q: Quad<seq<nat>>): Quad<Bits> {
    Quad(ValuesOf(w, q.a), ValuesOf(w, q.b), ValuesOf(w, q.c), ValuesOf(w, q.d))
  }

  method Add(b: CircuitBuilder, x: seq<nat>, y: seq<nat>) returns (r: seq<nat>)
    requires b.Valid() && NodeWord(x, b.feedId) && NodeWord(y, b.feedId)
    modifies b
    ensures b.Grown() && NodeWord(r, b.feedId) && SumUnder(b.gates, r, x, y)
    ensures Variables(x) && Variables(y) ==> Variables(r)
  {
    r := WrappingAdd(b, x, y);
  }

  /** `r` is the XOR of `x` and `y`, rotated right by `k`. */
  ghost predicate XorRotateUnder(gates: seq<Gate>, r: seq<nat>, x: seq<nat>, y: seq<nat>, k: nat) {
    |x| == |y| && k <= |x| && forall w: nat -> bool :: Models(w, gates) ==>
      ValuesOf(w, r) == RotateRight(Xor(ValuesOf(w, x), ValuesOf(w, y)), k)
  }

  lemma RotatedValues(w: nat -> bool, x: seq<nat>, k: nat)
    requires k <= |x|
    ensures ValuesOf(w, x[k..] + x[..k]) == RotateRight(ValuesOf(w, x), k)
  {
  }

  method XorRotate(b: CircuitBuilder, x: seq<nat>, y: seq<nat>, k: nat) returns (r: seq<nat>)
    requires b.Valid() && NodeWord(x, b.feedId) && NodeWord(y, b.feedId) && k <= 32
    modifies b
    ensures b.Grown() && NodeWord(r, b.feedId) && XorRotateUnder(b.gates, r, x, y, k)
    ensures Variables(x) && Variables(y) ==> Variables(r)
  {
    var z := XorWords(b, x, y);
    assert x[..32] == x && y[..32] == y;
    r := z[k..] + z[..k];
    forall w: nat -> bool | Models(w, b.gates)
      ensures ValuesOf(w, r) == RotateRight(Xor(ValuesOf(w, x), ValuesOf(w, y)), k)
    {
      RotatedValues(w, z, k);
    }
  }

  lemma HalfMixModel(w: nat -> bool, q: Quad<seq<nat>>, m: seq<nat>, r: nat, s: nat, a0: seq<nat>, q': Quad<seq<nat>>)
    requires |q.a| == |q.b| == |q.c| == |q.d| == |m| == 32 && r <= 32 && s <= 32 && |q'.a| == |q'.c| == 32
    requires ValuesOf(w, a0) == AddWords(ValuesOf(w, q.a), ValuesOf(w, q.b))
    requires ValuesOf(w, q'.a) == AddWords(ValuesOf(w, a0), ValuesOf(w, m))
    requires ValuesOf(w, q'.d) == RotateRight(Xor(ValuesOf(w, q.d), ValuesOf(w, q'.a)), r)
    requires ValuesOf(w, q'.c) == AddWords(ValuesOf(w, q.c), ValuesOf(w, q'.d))
    requires ValuesOf(w, q'.b) == RotateRight(Xor(ValuesOf(w, q.b), ValuesOf(w, q'.c)), s)
    ensures QuadValues(w, q') == HalfMix(QuadValues(w, q), ValuesOf(w, m), r, s)
  {
  }

  /** In every model the nodes `q'` hold what half a mix makes of the nodes `q`. */
  ghost predicate HalfMixUnder(gates: seq<Gate>, q': Quad<seq<nat>>, q: Quad<seq<nat>>, m: seq<nat>, r: nat, s: nat) {
    && |q.a| == |q.b| == |q.c| == |q.d| == |m| == 32 && r <= 32 && s <= 32
    && forall w: nat -> bool :: Models(w, gates)
                                ==> QuadValues(w, q') == HalfMix(QuadValues(w, q), ValuesOf(w, m), r, s)
  }

  method HalfMixNodes(b: CircuitBuilder, q: Quad<seq<nat>>, m: seq<nat>, r: nat, s: nat) returns (q': Quad<seq<nat>>)
    requires b.Valid() && NodeQuad(q, b.feedId) && NodeWord(m, b.feedId) && r <= 32 && s <= 32
    modifies b
    ensures b.Grown() && NodeQuad(q', b.feedId) && HalfMixUnder(b.gates, q', q, m, r, s)
    ensures QuadVariables(q) && Variables(m) ==> QuadVariables(q')
  {
    var a0 := Add(b, q.a, q.b);
    ghost var g1 := b.gates;
    var a := Add(b, a0, m);
    ghost var g2 := b.gates;
    var d := XorRotate(b, q.d, a, r);
    ghost var g3 := b.gates;
    var c := Add(b, q.c, d);
    ghost var g4 := b.gates;
    var bb := XorRotate(b, q.b, c, s);
    q' := Quad(a, bb, c, d);
    forall w: nat -> bool | Models(w, b.gates)
      ensures QuadValues(w, q') == HalfMix(QuadValues(w, q), ValuesOf(w, m), r, s)
    {
      assert Models(w, g4);
      assert Models(w, g3);
      assert Models(w, g2);
      assert Models(w, g1);
      HalfMixModel(w, q, m, r, s, a0, q');
    }
  }

  // Words of nodes.

  predicate NodeState(s: seq<seq<nat>>, feedId: nat) {
    |s| == 16 && forall i | 0 <= i < 16 :: NodeWord(s[i], feedId)
  }

  function StateValues(w: nat -> bool, s: seq<seq<nat>>): (r: seq<Bits>)
    ensures |r| == |s| && forall i | 0 <= i < |s| :: r[i] == ValuesOf(w, s[i])
  {
    seq(|s|, i requires 0 <= i < |s| => ValuesOf(w, s[i]))
  }

  predicate Shaped(s: seq<seq<nat>>) {
    |s| == 16 && forall i | 0 <= i < 16 :: |s[i]| == 32
  }

  lemma MixModel(w: nat -> bool, s: seq<seq<nat>>, m: seq<seq<nat>>, t: MixStep, q: Quad<seq<nat>>, s': seq<seq<nat>>)
    requires Shaped(s) && Shaped(m) && Positions(t.p) && t.x < 16 && t.y < 16
    requires QuadValues(w, q)
        == HalfMix(HalfMix(QuadValues(w, Quad(s[t.p.a], s[t.p.b], s[t.p.c], s[t.p.d])), ValuesOf(w, m[t.x]), 16, 12),
                   ValuesOf(w, m[t.y]), 8, 7)
    requires s' == s[t.p.a := q.a][t.p.b := q.b][t.p.c := q.c][t.p.d := q.d]
    ensures StateValues(w, s') == MixWords(StateValues(w, s), StateValues(w, m), t.p, t.x, t.y)
  {
  }

  /** In every model the nodes `t` hold what one mix step makes of the nodes `s`. */
  ghost predicate MixesUnder(gates: seq<Gate>, t: seq<seq<nat>>, s: seq<seq<nat>>, m: seq<seq<nat>>, step: MixStep) {
    && Shaped(s) && Shaped(m) && Positions(step.p) && step.x < 16 && step.y < 16
    && forall w: nat -> bool :: Models(w, gates) ==>
      StateValues(w, t) == MixWords(StateValues(w, s), StateValues(w, m), step.p, step.x, step.y)
  }

  lemma MixNodes(g1: seq<Gate>, g: seq<Gate>, s: seq<seq<nat>>, m: seq<seq<nat>>, t: MixStep, q1: Quad<seq<nat>>,
                 q: Quad<seq<nat>>, s': seq<seq<nat>>)
    requires Shaped(s) && Shaped(m) && Positions(t.p) && t.x < 16 && t.y < 16
    requires HalfMixUnder(g1, q1, Quad(s[t.p.a], s[t.p.b], s[t.p.c], s[t.p.d]), m[t.x], 16, 12)
        && HalfMixUnder(g, q, q1, m[t.y], 8, 7)
    requires s' == s[t.p.a := q.a][t.p.b := q.b][t.p.c := q.c][t.p.d := q.d]
    requires forall w: nat -> bool :: Models(w, g) ==> Models(w, g1)
    ensures MixesUnder(g, s', s, m, t)
  {
    forall w: nat -> bool | Models(w, g)
      ensures StateValues(w, s') == MixWords(StateValues(w, s), StateValues(w, m), t.p, t.x, t.y)
    {
      assert Models(w, g1);
      MixModel(w, s, m, t, q, s');
    }
  }

  lemma PlacedNodes(s: seq<seq<nat>>, p: Quad<nat>, q: Quad<seq<nat>>, s': seq<seq<nat>>, feedId: nat, feedId': nat)
    requires NodeState(s, feedId) && NodeQuad(q, feedId') && feedId <= feedId' && Positions(p)
    requires s' == s[p.a := q.a][p.b := q.b][p.c := q.c][p.d := q.d]
    ensures NodeState(s', feedId')
  {
  }

  lemma PlacedVariables(s: seq<seq<nat>>, p: Quad<nat>, q: Quad<seq<nat>>, s': seq<seq<nat>>)
    requires |s| == 16 && Positions(p) && NoConstants(s) && QuadVariables(q)
    requires s' == s[p.a := q.a][p.b := q.b][p.c := q.c][p.d := q.d]
    ensures NoConstants(s')
  {
  }

  method Mix(b: CircuitBuilder, s: seq<seq<nat>>, m: seq<seq<nat>>, t: MixStep) returns (s': seq<seq<nat>>)
    requires b.Valid() && NodeState(s, b.feedId) && NodeState(m, b.feedId) && Positions(t.p) && t.x < 16 && t.y < 16
    modifies b
    ensures b.Grown() && NodeState(s', b.feedId) && MixesUnder(b.gates, s', s, m, t)
    ensures NoConstants(s) && NoConstants(m) ==> NoConstants(s')
  {
    var q0 := Quad(s[t.p.a], s[t.p.b], s[t.p.c], s[t.p.d]);
    var q1 := HalfMixNodes(b, q0, m[t.x], 16, 12);
    ghost var g1 := b.gates;
    var q := HalfMixNodes(b, q1, m[t.y], 8, 7);
    s' := s[t.p.a := q.a][t.p.b := q.b][t.p.c := q.c][t.p.d := q.d];
    MixNodes(g1, b.gates, s, m, t, q1, q, s');
    PlacedNodes(s, t.p, q, s', old(b.feedId), b.feedId);
    if NoConstants(s) && NoConstants(m) {
      PlacedVariables(s, t.p, q, s');
    }
  }

  /** In every model the nodes `t` hold the nodes `s` after the given mix steps. */
  ghost predicate MixedUnder(gates: seq<Gate>, t: seq<seq<nat>>, s: seq<seq<nat>>, m: seq<seq<nat>>,
                             steps: seq<MixStep>) {
    && Shaped(s) && Shaped(m) && StepsOk(steps)
    && forall w: nat -> bool :: Models(w, gates) ==>
      StateValues(w, t) == MixAll(StateValues(w, s), StateValues(w, m), steps)
  }

  lemma MixedStep(g0: seq<Gate>, g: seq<Gate>, s0: seq<seq<nat>>, s: seq<seq<nat>>, t: seq<seq<nat>>, m: seq<seq<nat>>,
                  steps: seq<MixStep>, n: nat)
    requires n < |steps| && StepsOk(steps)
    requires MixedUnder(g0, s, s0, m, steps[..n]) && MixesUnder(g, t, s, m, steps[n])
    requires forall w: nat -> bool :: Models(w, g) ==> Models(w, g0)
    ensures MixedUnder(g, t, s0, m, steps[..n + 1])
  {
    assert steps[..n + 1][..n] == steps[..n];
  }

  method Round(b: CircuitBuilder, s: seq<seq<nat>>, m: seq<seq<nat>>) returns (t: seq<seq<nat>>)
    requires b.Valid() && NodeState(s, b.feedId) && NodeState(m, b.feedId)
    modifies b
    ensures b.Grown() && NodeState(t, b.feedId) && MixedUnder(b.gates, t, s, m, RoundSteps())
    ensures NoConstants(s) && NoConstants(m) ==> NoConstants(t)
  {
    t := s;
    var steps := RoundSteps();
    for n := 0 to |steps|
      invariant b.Grown() && NodeState(t, b.feedId) && MixedUnder(b.gates, t, s, m, steps[..n])
      invariant NoConstants(s) && NoConstants(m) ==> NoConstants(t)
    {
      ghost var g0, before := b.gates, t;
      t := Mix(b, t, m, steps[n]);
      MixedStep(g0, b.gates, s, before, t, m, steps, n);
    }
    assert steps[..|steps|] == steps;
  }

  /** In every model `t` holds the state after `n` rounds, and `k` the message words of the next round. */
  ghost predicate RoundsUnder(gates: seq<Gate>, t: seq<seq<nat>>, k: seq<seq<nat>>, s: seq<seq<nat>>, m: seq<seq<nat>>,
                              n: nat) {
    && Shaped(s) && Shaped(m)
    && forall w: nat -> bool :: Models(w, gates) ==>
      && StateValues(w, t) == Rounds(StateValues(w, s), StateValues(w, m), n)
      && StateValues(w, k) == Schedule(StateValues(w, m), n)
  }

  lemma PermutedValues(w: nat -> bool, k: seq<seq<nat>>)
    requires |k| == 16
    ensures StateValues(w, Permute(k)) == Permute(StateValues(w, k))
  {
  }

  lemma RoundStep(g0: seq<Gate>, g: seq<Gate>, t0: seq<seq<nat>>, t: seq<seq<nat>>, k: seq<seq<nat>>, s: seq<seq<nat>>,
                  m: seq<seq<nat>>, n: nat)
    requires RoundsUnder(g0, t0, k, s, m, n) && MixedUnder(g, t, t0, k, RoundSteps())
    requires forall w: nat -> bool :: Models(w, g) ==> Models(w, g0)
    ensures RoundsUnder(g, t, Permute(k), s, m, n + 1)
  {
    forall w: nat -> bool | Models(w, g)
      ensures StateValues(w, t) == Rounds(StateValues(w, s), StateValues(w, m), n + 1)
      ensures StateValues(w, Permute(k)) == Schedule(StateValues(w, m), n + 1)
    {
      PermutedValues(w, k);
    }
  }

  lemma PermutedNodes(k: seq<seq<nat>>, feedId: nat, feedId': nat)
    requires NodeState(k, feedId) && feedId <= feedId'
    ensures NodeState(Permute(k), feedId')
  {
  }

  method NextRound(b: CircuitBuilder, t0: seq<seq<nat>>, k: seq<seq<nat>>, ghost s: seq<seq<nat>>,
                   ghost m: seq<seq<nat>>, ghost n: nat)
    returns (t: seq<seq<nat>>, k': seq<seq<nat>>)
    requires b.Valid() && NodeState(t0, b.feedId) && NodeState(k, b.feedId) && RoundsUnder(b.gates, t0, k, s, m, n)
    modifies b
    ensures b.Grown() && NodeState(t, b.feedId) && NodeState(k', b.feedId) && RoundsUnder(b.gates, t, k', s, m, n + 1)
    ensures NoConstants(t0) && NoConstants(k) ==> NoConstants(t) && NoConstants(k')
  {
    ghost var g0 := b.gates;
    PermutedNodes(k, b.feedId, b.feedId);
    t := Round(b, t0, k);
    RoundStep(g0, b.gates, t0, t, k, s, m, n);
    k' := Permute(k);
  }

  lemma NoRounds(gates: seq<Gate>, s: seq<seq<nat>>, m: seq<seq<nat>>)
    requires Shaped(s) && Shaped(m)
    ensures RoundsUnder(gates, s, m, s, m, 0)
  {
  }

  /** All rounds but the last, each followed by a permutation of the message words. */
  method RoundsBeforeLast(b: CircuitBuilder, s: seq<seq<nat>>, m: seq<seq<nat>>, rounds: nat)
    returns (t: seq<seq<nat>>, k: seq<seq<nat>>)
    requires b.Valid() && NodeState(s, b.feedId) && NodeState(m, b.feedId)
    modifies b
    ensures b.Grown() && NodeState(t, b.feedId) && NodeState(k, b.feedId) && RoundsUnder(b.gates, t, k, s, m, rounds)
    ensures NoConstants(s) && NoConstants(m) ==> NoConstants(t) && NoConstants(k)
  {
    t, k := s, m;
    NoRounds(b.gates, s, m);
    for n := 0 to rounds
      invariant b.Grown() && NodeState(t, b.feedId) && NodeState(k, b.feedId)
      invariant RoundsUnder(b.gates, t, k, s, m, n)
      invariant NoConstants(s) && NoConstants(m) ==> NoConstants(t) && NoConstants(k)
    {
      t, k := NextRound(b, t, k, s, m, n);
    }
  }

  /** `before` rounds and the last one; the permutation after the last round is not used. */
  method AllRounds(b: CircuitBuilder, s: seq<seq<nat>>, m: seq<seq<nat>>, before: nat)
    returns (t: seq<seq<nat>>, ghost schedule: seq<seq<nat>>)
    requires b.Valid() && NodeState(s, b.feedId) && NodeState(m, b.feedId)
    modifies b
    ensures b.Grown() && NodeState(t, b.feedId) && RoundsUnder(b.gates, t, schedule, s, m, before + 1)
    ensures NoConstants(s) && NoConstants(m) ==> NoConstants(t)
  {
    var k;
    t, k := RoundsBeforeLast(b, s, m, before);
    t, schedule := NextRound(b, t, k, s, m, before);
  }

  /** The first `n` words of each half are final and the others untouched; with no constants around, the final ones are
      gates numbered from `first`. */
  ghost predicate FedUnder(gates: seq<Gate>, r: seq<seq<nat>>, t: seq<seq<nat>>, s: seq<seq<nat>>, n: nat, first: nat) {
    && Shaped(r) && Shaped(t) && Shaped(s) && n <= 8
    && r[n..8] == t[n..8] && r[n + 8..] == t[n + 8..]
    && (NoConstants(t) && NoConstants(s) ==> FreshHalves(gates, r, n, first))
    && forall w: nat -> bool :: Models(w, gates)
                                ==> FedWords(StateValues(w, r), StateValues(w, t), StateValues(w, s), n)
  }

  ghost predicate FreshHalves(gates: seq<Gate>, r: seq<seq<nat>>, n: nat, first: nat)
    requires |r| == 16 && n <= 8
  {
    forall i: nat | i < n || 8 <= i < 8 + n :: FreshGates(gates, r[i], first + Slot(i))
  }

  /** Where word `i` of the output starts among the last 512 gates. */
  function Slot(i: nat): nat {
    if i < 8 then 64 * i else 64 * (i - 8) + 32
  }

  lemma FreshHalvesStep(g0: seq<Gate>, g1: seq<Gate>, g: seq<Gate>, r: seq<seq<nat>>, n: nat, first: nat, lo: seq<nat>,
                        hi: seq<nat>)
    requires |r| == 16 && n < 8 && FreshHalves(g0, r, n, first) && g0 <= g && g1 <= g
    requires FreshGates(g1, lo, first + 64 * n) && FreshGates(g, hi, first + 64 * n + 32)
    ensures FreshHalves(g, r[n := lo][n + 8 := hi], n + 1, first)
  {
    GateOutputsKept(g0, g);
    GateOutputsKept(g1, g);
  }

  predicate FedWords(r: seq<Bits>, t: seq<Bits>, s: seq<Bits>, n: nat)
    requires |r| == |t| == |s| == 16 && n <= 8
  {
    Words16(t) && Words16(s) && forall i | 0 <= i < n :: r[i] == Xor(t[i], t[i + 8]) && r[i + 8] == Xor(t[i + 8], s[i])
  }

  lemma FedStep(w: nat -> bool, r: seq<seq<nat>>, t: seq<seq<nat>>, s: seq<seq<nat>>, n: nat, lo: seq<nat>,
                hi: seq<nat>)
    requires Shaped(r) && Shaped(t) && Shaped(s) && n < 8 && |lo| == |hi| == 32
    requires r[n] == t[n] && r[n + 8] == t[n + 8]
    requires FedWords(StateValues(w, r), StateValues(w, t), StateValues(w, s), n)
    requires ValuesOf(w, lo) == Xor(ValuesOf(w, t[n]), ValuesOf(w, t[n + 8]))
        && ValuesOf(w, hi) == Xor(ValuesOf(w, t[n + 8]), ValuesOf(w, s[n]))
    ensures FedWords(StateValues(w, r[n := lo][n + 8 := hi]), StateValues(w, t), StateValues(w, s), n + 1)
  {
  }

  method FeedOnce(b: CircuitBuilder, r: seq<seq<nat>>, s: seq<seq<nat>>, n: nat, ghost t: seq<seq<nat>>,
                  ghost first: nat) returns (r': seq<seq<nat>>)
    requires b.Valid() && n < 8 && NodeState(r, b.feedId) && NodeState(s, b.feedId)
    requires FedUnder(b.gates, r, t, s, n, first) && (NoConstants(t) && NoConstants(s) ==> b.feedId == first + 64 * n)
    modifies b
    ensures b.Grown() && NodeState(r', b.feedId) && FedUnder(b.gates, r', t, s, n + 1, first)
    ensures NoConstants(t) && NoConstants(s) ==> b.feedId == first + 64 * (n + 1)
  {
    SameWords(r, t, n);
    assert NodeWord(r[n], b.feedId) && NodeWord(r[n + 8], b.feedId) && NodeWord(s[n], b.feedId);
    ghost var g0 := b.gates;
    var lo := XorWords(b, r[n], r[n + 8]);
    ghost var g1 := b.gates;
    var hi := XorWords(b, r[n + 8], s[n]);
    r' := r[n := lo][n + 8 := hi];
    ReplacedNodes(r, n, lo, hi, old(b.feedId), b.feedId);
    FedUnderStep(g0, g1, b.gates, r, t, s, n, first, lo, hi);
  }

  lemma SameWords(r: seq<seq<nat>>, t: seq<seq<nat>>, n: nat)
    requires |r| == |t| == 16 && n < 8 && r[n..8] == t[n..8] && r[n + 8..] == t[n + 8..]
    ensures r[n] == t[n] && r[n + 8] == t[n + 8]
  {
    assert r[n..8][0] == t[n..8][0] && r[n + 8..][0] == t[n + 8..][0];
  }

  lemma ReplacedNodes(r: seq<seq<nat>>, n: nat, lo: seq<nat>, hi: seq<nat>, feedId: nat, feedId': nat)
    requires n < 8 && NodeState(r, feedId) && NodeWord(lo, feedId') && NodeWord(hi, feedId') && feedId <= feedId'
    ensures NodeState(r[n := lo][n + 8 := hi], feedId')
  {
  }

  lemma FedUnderStep(g0: seq<Gate>, g1: seq<Gate>, g: seq<Gate>, r: seq<seq<nat>>, t: seq<seq<nat>>, s: seq<seq<nat>>,
                     n: nat, first: nat, lo: seq<nat>, hi: seq<nat>)
    requires n < 8 && FedUnder(g0, r, t, s, n, first) && g0 <= g && g1 <= g && |lo| == |hi| == 32
    requires NoConstants(t) && NoConstants(s)
        ==> FreshGates(g1, lo, first + 64 * n) && FreshGates(g, hi, first + 64 * n + 32)
    requires XorsUnder(g1, lo, r[n], r[n + 8], 32) && XorsUnder(g, hi, r[n + 8], s[n], 32)
    requires forall w: nat -> bool :: Models(w, g) ==> Models(w, g1)
    requires forall w: nat -> bool :: Models(w, g1) ==> Models(w, g0)
    ensures FedUnder(g, r[n := lo][n + 8 := hi], t, s, n + 1, first)
  {
    if NoConstants(t) && NoConstants(s) {
      FreshHalvesStep(g0, g1, g, r, n, first, lo, hi);
    }
    assert r[n..8][0] == t[n..8][0] && r[n + 8..][0] == t[n + 8..][0];
    assert forall i | n < i < 8 :: r[n..8][i - n] == r[i] && t[n..8][i - n] == t[i];
    assert forall i | n + 8 < i < 16 :: r[n + 8..][i - n - 8] == r[i] && t[n + 8..][i - n - 8] == t[i];
    forall w: nat -> bool | Models(w, g)
      ensures FedWords(StateValues(w, r[n := lo][n + 8 := hi]), StateValues(w, t), StateValues(w, s), n + 1)
    {
      assert Models(w, g1) && Models(w, g0);
      FedXors(w, g1, g, lo, hi, r[n], r[n + 8], s[n]);
      FedStep(w, r, t, s, n, lo, hi);
    }
  }

  lemma FedXors(w: nat -> bool, g1: seq<Gate>, g: seq<Gate>, lo: seq<nat>, hi: seq<nat>, x: seq<nat>, y: seq<nat>,
                z: seq<nat>)
    requires Models(w, g1) && Models(w, g) && |x| == |y| == |z|
    requires XorsUnder(g1, lo, x, y, |x|) && XorsUnder(g, hi, y, z, |y|)
    ensures ValuesOf(w, lo) == Xor(ValuesOf(w, x), ValuesOf(w, y))
        && ValuesOf(w, hi) == Xor(ValuesOf(w, y), ValuesOf(w, z))
  {
    assert x[..|x|] == x && y[..|x|] == y && z[..|y|] == z;
  }

  // The whole circuit.

  /** All bits of 32-bit words, in order. */
  function Flatten<T>(words: seq<seq<T>>): (r: seq<T>)
    requires forall i | 0 <= i < |words| :: |words[i]| == 32
    ensures |r| == 32 * |words|
  {
    if words == [] then [] else Flatten(words[..|words| - 1]) + words[|words| - 1]
  }

  lemma {:induction false} FlattenAt<T>(words: seq<seq<T>>, p: nat)
    requires forall i | 0 <= i < |words| :: |words[i]| == 32
    requires p < 32 * |words|
    ensures Flatten(words)[p] == words[p / 32][p % 32]
  {
    var n := |words| - 1;
    if p < 32 * n {
      FlattenAt(words[..n], p);
    }
  }

  function CompressInput(bits: seq<bool>, start: nat): (r: seq<Bits>)
    requires start + 512 <= |bits|
    ensures Words16(r)
  {
    seq(16, i requires 0 <= i < 16 => bits[start + 32 * i..start + 32 * i + 32])
  }

  lemma FedAll(r: seq<Bits>, t: seq<Bits>, s: seq<Bits>)
    requires |r| == |t| == |s| == 16 && FedWords(r, t, s, 8)
    ensures r == FeedForward(t, s)
  {
    forall i | 0 <= i < 16 ensures r[i] == FeedForward(t, s)[i] {
      if i >= 8 {
        assert r[(i - 8) + 8] == Xor(t[i], s[i - 8]);
      }
    }
  }

  /** In every model `r` holds the compression of the message `m` with the state `s`. */
  ghost predicate CompressesUnder(gates: seq<Gate>, r: seq<seq<nat>>, m: seq<seq<nat>>, s: seq<seq<nat>>) {
    && Shaped(m) && Shaped(s)
    && forall w: nat -> bool :: Models(w, gates) ==>
      StateValues(w, r) == CompressWords(StateValues(w, m), StateValues(w, s))
  }

  lemma FedCompresses(g1: seq<Gate>, g: seq<Gate>, k: seq<seq<nat>>, t: seq<seq<nat>>, r: seq<seq<nat>>,
                      m: seq<seq<nat>>, s: seq<seq<nat>>, first: nat)
    requires RoundsUnder(g1, t, k, s, m, ROUNDS) && FedUnder(g, r, t, s, 8, first)
    requires forall w: nat -> bool :: Models(w, g) ==> Models(w, g1)
    ensures CompressesUnder(g, r, m, s)
  {
    forall w: nat -> bool | Models(w, g)
      ensures StateValues(w, r) == CompressWords(StateValues(w, m), StateValues(w, s))
    {
      FedAll(StateValues(w, r), StateValues(w, t), StateValues(w, s));
    }
  }

  method CompressInternal(b: CircuitBuilder, m: seq<seq<nat>>, s: seq<seq<nat>>)
    returns (r: seq<seq<nat>>, ghost first: nat)
    requires b.Valid() && NodeState(s, b.feedId) && NodeState(m, b.feedId)
    modifies b
    ensures b.Grown() && NodeState(r, b.feedId) && CompressesUnder(b.gates, r, m, s)
    ensures NoConstants(s) && NoConstants(m) ==> FreshHalves(b.gates, r, 8, first)
  {
    ghost var k;
    var t;
    t, k := AllRounds(b, s, m, ROUNDS - 1);
    ghost var g1 := b.gates;
    first := b.feedId;
    r := t;
    for n := 0 to 8
      invariant b.Grown() && NodeState(r, b.feedId) && FedUnder(b.gates, r, t, s, n, first)
      invariant NoConstants(t) && NoConstants(s) ==> b.feedId == first + 64 * n
      invariant forall w: nat -> bool :: Models(w, b.gates) ==> Models(w, g1)
    {
      r := FeedOnce(b, r, s, n, t, first);
    }
    FedCompresses(g1, b.gates, k, t, r, m, s, first);
  }

  /** Before any gate, the inputs are numbered from 2. */
  predicate OnlyInputs(b: CircuitBuilder, n: nat)
    reads b
  {
    b.gates == [] && b.outputs == [] && b.feedId == 2 + n && |b.inputs| == n && forall i | 0 <= i < n ::
      b.inputs[i] == 2 + i
  }

  /** Word `i` is made of the inputs from `start + 32·i`. */
  predicate InputWords(words: seq<seq<nat>>, start: nat) {
    forall i | 0 <= i < |words| :: InputWord(words[i], start + 32 * i)
  }

  predicate InputWord(word: seq<nat>, start: nat) {
    |word| == 32 && forall j | 0 <= j < 32 :: word[j] == 2 + start + j
  }

  method AddInputWord(b: CircuitBuilder, ghost n: nat) returns (word: seq<nat>)
    requires b.Valid() && OnlyInputs(b, n)
    modifies b
    ensures b.Valid() && OnlyInputs(b, n + 32) && InputWord(word, n)
  {
    word := [];
    for j := 0 to 32
      invariant b.Valid() && OnlyInputs(b, n + j) && |word| == j && forall k | 0 <= k < j :: word[k] == 2 + n + k
    {
      var node := b.AddInput();
      word := word + [node];
    }
  }

  method AddInputWords(b: CircuitBuilder, ghost n: nat) returns (words: seq<seq<nat>>)
    requires b.Valid() && OnlyInputs(b, n)
    modifies b
    ensures b.Valid() && OnlyInputs(b, n + 512) && |words| == 16 && InputWords(words, n)
  {
    words := [];
    for i := 0 to 16
      invariant b.Valid() && OnlyInputs(b, n + 32 * i) && |words| == i && InputWords(words, n)
    {
      var word := AddInputWord(b, n + 32 * i);
      words := words + [word];
    }
  }

  lemma InputWordsAreNodes(words: seq<seq<nat>>, start: nat, feedId: nat)
    requires |words| == 16 && InputWords(words, start) && start + 512 + 2 <= feedId
    ensures NodeState(words, feedId) && NoConstants(words)
  {
    forall i | 0 <= i < 16 ensures NodeWord(words[i], feedId) && Variables(words[i]) {
      assert InputWord(words[i], start + 32 * i);
    }
  }

  lemma InputWordValue(w: nat -> bool, word: seq<nat>, start: nat, bits: seq<bool>)
    requires InputWord(word, start) && start + 32 <= |bits|
    requires forall i: nat | i < |bits| :: w(2 + i) == bits[i]
    ensures ValuesOf(w, word) == bits[start..start + 32]
  {
    forall j | 0 <= j < 32 ensures ValuesOf(w, word)[j] == bits[start..start + 32][j] {
      assert w(2 + (start + j)) == bits[start + j];
    }
  }

  lemma InputWordValues(w: nat -> bool, words: seq<seq<nat>>, start: nat, bits: seq<bool>)
    requires |words| == 16 && InputWords(words, start) && start + 512 <= |bits|
    requires forall i: nat | i < |bits| :: w(2 + i) == bits[i]
    ensures StateValues(w, words) == CompressInput(bits, start)
  {
    forall i | 0 <= i < 16
      ensures StateValues(w, words)[i] == CompressInput(bits, start)[i]
    {
      InputWordValue(w, words[i], start + 32 * i, bits);
    }
  }

  method AddOutputs(b: CircuitBuilder, words: seq<seq<nat>>)
    requires b.Valid() && NodeState(words, b.feedId) && b.outputs == []
    modifies b
    ensures b.Valid() && b.inputs == old(b.inputs) && b.gates == old(b.gates) && b.feedId == old(b.feedId)
    ensures b.outputs == Flatten(words)
  {
    for i := 0 to 16
      invariant b.Valid() && b.inputs == old(b.inputs) && b.gates == old(b.gates) && b.feedId == old(b.feedId)
      invariant b.outputs == Flatten(words[..i])
    {
      assert words[..i + 1][..i] == words[..i];
      AddOutputWord(b, words[i]);
    }
    assert words[..16] == words;
  }

  method AddOutputWord(b: CircuitBuilder, word: seq<nat>)
    requires b.Valid() && NodeWord(word, b.feedId)
    modifies b
    ensures b.Valid() && b.inputs == old(b.inputs) && b.gates == old(b.gates) && b.feedId == old(b.feedId)
    ensures b.outputs == old(b.outputs) + word
  {
    for j := 0 to 32
      invariant b.Valid() && b.inputs == old(b.inputs) && b.gates == old(b.gates) && b.feedId == old(b.feedId)
      invariant b.outputs == old(b.outputs) + word[..j]
    {
      b.AddOutput(word[j]);
    }
  }

  lemma SlotsDisjoint(i: nat, j: nat, i': nat, j': nat)
    requires i < 16 && i' < 16 && j < 32 && j' < 32 && Slot(i) + j == Slot(i') + j'
    ensures i == i' && j == j'
  {
  }

  lemma FreshAt(gates: seq<Gate>, words: seq<seq<nat>>, first: nat, p: nat)
    requires Shaped(words) && FreshHalves(gates, words, 8, first) && p < 512
    ensures Flatten(words)[p] == first + Slot(p / 32) + p % 32 && IsGateOutput(gates, Flatten(words)[p])
  {
    FlattenAt(words, p);
    var i, j := p / 32, p % 32;
    assert FreshGates(gates, words[i], first + Slot(i));
    assert words[i][j] == first + Slot(i) + j;
  }

  lemma OutputsDistinct(gates: seq<Gate>, words: seq<seq<nat>>, first: nat)
    requires Shaped(words) && FreshHalves(gates, words, 8, first)
    ensures OutputsAreGates(Flatten(words), gates)
  {
    var out := Flatten(words);
    forall p | 0 <= p < |out| ensures IsGateOutput(gates, out[p]) {
      FreshAt(gates, words, first, p);
    }
    forall p, p' | 0 <= p < p' < |out| ensures out[p] != out[p'] {
      FreshAt(gates, words, first, p);
      FreshAt(gates, words, first, p');
      if out[p] == out[p'] {
        SlotsDisjoint(p / 32, p % 32, p' / 32, p' % 32);
        assert false;
      }
    }
  }

  lemma FlattenedValues(w: nat -> bool, words: seq<seq<nat>>)
    requires Shaped(words)
    ensures ValuesOf(w, Flatten(words)) == Flatten(StateValues(w, words))
  {
    forall p: nat | p < 512 ensures ValuesOf(w, Flatten(words))[p] == Flatten(StateValues(w, words))[p] {
      FlattenAt(words, p);
      FlattenAt(StateValues(w, words), p);
    }
  }

  lemma CompressModel(feedId: nat, inputs: seq<nat>, gates: seq<Gate>, m: seq<seq<nat>>, s: seq<seq<nat>>,
                      r: seq<seq<nat>>, bits: seq<bool>)
    returns (w: nat -> bool)
    requires WellNumbered(feedId, inputs, gates) && |inputs| == |bits| == 1024 && forall i | 0 <= i < 1024 ::
        inputs[i] == 2 + i
    requires InputWords(m, 0) && InputWords(s, 512) && Shaped(r) && CompressesUnder(gates, r, m, s)
    ensures MeetsInputs(w, gates, inputs, bits)
    ensures ValuesOf(w, Flatten(r)) == Flatten(CompressWords(CompressInput(bits, 0), CompressInput(bits, 512)))
  {
    w := ModelExists(feedId, inputs, gates, bits, |gates|);
    assert gates[..|gates|] == gates;
    forall i: nat | i < |bits| ensures w(2 + i) == bits[i] {
      assert inputs[i] == 2 + i;
    }
    InputWordValues(w, m, 0, bits);
    InputWordValues(w, s, 512, bits);
    FlattenedValues(w, r);
  }

  /** The compression circuit computes the word-level compression of its message and state, for all inputs. */
  method Compress() returns (c: Circuit)
    ensures c.WellFormed() && c.inputs == 1024 && c.outputs == 512
    ensures forall bits: seq<bool> | |bits| == 1024 ::
      Yields(c, bits, Flatten(CompressWords(CompressInput(bits, 0), CompressInput(bits, 512))))
  {
    var b := new CircuitBuilder();
    var m := AddInputWords(b, 0);
    var s := AddInputWords(b, 512);
    InputWordsAreNodes(m, 0, b.feedId);
    InputWordsAreNodes(s, 512, b.feedId);
    ghost var first;
    var r;
    r, first := CompressInternal(b, m, s);
    AddOutputs(b, r);
    OutputsDistinct(b.gates, r, first);
    GatesPlaced(b.feedId, b.outputs, b.inputs, b.gates);
    var built := b.Build();
    c := built.value;
    forall bits: seq<bool> | |bits| == 1024
      ensures Yields(c, bits, Flatten(CompressWords(CompressInput(bits, 0), CompressInput(bits, 512))))
    {
      var w := CompressModel(b.feedId, b.inputs, b.gates, m, s, r, bits);
    }
  }
}
