/** Half-gate garbling: both parties walk the gate list and keep one correlated label per wire. */
module Garbling {
  import opened Bits
  import opened Circuits

  /** The tweakable hash; the tweak is the gate id. */
  type Hash = (nat, Block) -> Block

  /** The two rows of a garbled AND gate. */
  datatype EncryptedGate = EncryptedGate(generator: Block, evaluator: Block)

  function DefaultGate(): EncryptedGate {
    EncryptedGate(ZERO, ZERO)
  }

  // One AND gate.

  function GarbledRows(x0: Block, hx0: Block, hy0: Block, hx1: Block, hy1: Block, pb: bool,
                       delta: Block): EncryptedGate {
    EncryptedGate(Xor(Xor(hx0, hx1), Scale(pb, delta)), Xor(Xor(hy0, hy1), x0))
  }

  /** The garbler's rows for an AND gate. */
  function GarbleRows(tccr: Hash, x0: Block, y0: Block, delta: Block, gid: nat): EncryptedGate {
    GarbledRows(x0, tccr(gid, x0), tccr(gid + 1, y0), tccr(gid, Xor(x0, delta)), tccr(gid + 1, Xor(y0, delta)), y0[0],
                delta)
  }

  function Combine(x0: Block, hx0: Block, hy0: Block, pa: bool, pb: bool, rows: EncryptedGate): Block {
    Xor(Xor(hx0, Scale(pa, rows.generator)), Xor(hy0, Scale(pb, Xor(rows.evaluator, x0))))
  }

  /** The garbler's zero label of the output of an AND gate. */
  function GarbleLabel(tccr: Hash, x0: Block, y0: Block, delta: Block, gid: nat): Block {
    Combine(x0, tccr(gid, x0), tccr(gid + 1, y0), x0[0], y0[0], GarbleRows(tccr, x0, y0, delta, gid))
  }

  /** The evaluator's active label of the output of an AND gate. */
  function EvaluateAnd(tccr: Hash, x: Block, y: Block, rows: EncryptedGate, gid: nat): Block {
    Combine(x, tccr(gid, x), tccr(gid + 1, y), x[0], y[0], rows)
  }

  /** `active` is the label of `bit` on a wire with the given zero label. */
  predicate Encodes(active: Block, zero: Block, bit: bool, delta: Block) {
    active == Xor(zero, Scale(bit, delta))
  }

  /** The half-gate identity over the four hash values. */
  lemma HalfGates(x0: Block, y0: Block, hx0: Block, hy0: Block, hx1: Block, hy1: Block, a: bool, b: bool, delta: Block,
                  rows: EncryptedGate, x: Block, y: Block)
    requires delta[0] && rows == GarbledRows(x0, hx0, hy0, hx1, hy1, y0[0], delta)
    requires Encodes(x, x0, a, delta) && Encodes(y, y0, b, delta)
    ensures Encodes(Combine(x, if a then hx1 else hx0, if b then hy1 else hy0, x[0], y[0], rows),
                    Combine(x0, hx0, hy0, x0[0], y0[0], rows), a && b, delta)
  {
    var z := Combine(x, if a then hx1 else hx0, if b then hy1 else hy0, x[0], y[0], rows);
    var z0 := Combine(x0, hx0, hy0, x0[0], y0[0], rows);
    assert x[0] == (x0[0] != a) && y[0] == (y0[0] != b);
    forall i | 0 <= i < 128 ensures z[i] == Xor(z0, Scale(a && b, delta))[i] {
    }
  }

  /** Evaluating a garbled AND gate yields the label of the AND of the two bits. */
  lemma AndGateCorrect(tccr: Hash, x0: Block, y0: Block, x: Block, y: Block, a: bool, b: bool, delta: Block, gid: nat)
    requires delta[0] && Encodes(x, x0, a, delta) && Encodes(y, y0, b, delta)
    ensures Encodes(EvaluateAnd(tccr, x, y, GarbleRows(tccr, x0, y0, delta, gid), gid),
                    GarbleLabel(tccr, x0, y0, delta, gid), a && b, delta)
  {
    UnitScale(x0, delta);
    UnitScale(y0, delta);
    HalfGates(x0, y0, tccr(gid, x0), tccr(gid + 1, y0), tccr(gid, Xor(x0, delta)), tccr(gid + 1, Xor(y0, delta)), a, b,
              delta,
              GarbleRows(tccr, x0, y0, delta, gid), x, y);
  }

  lemma UnitScale(x: Block, delta: Block)
    ensures Xor(x, Scale(true, delta)) == Xor(x, delta) && Xor(x, Scale(false, delta)) == x
  {
  }

  /** The garbler's AND rule: input zero labels and gate id to output zero label and rows. */
  type GarbleRule = (Block, Block, nat) -> (Block, EncryptedGate)

  /** The evaluator's AND rule: active labels, rows and gate id to the active label of the output. */
  type EvaluateRule = (Block, Block, EncryptedGate, nat) -> Block

  function GarblesWith(tccr: Hash, delta: Block): GarbleRule {
    (x0: Block, y0: Block, gid: nat) => (GarbleLabel(tccr, x0, y0, delta, gid), GarbleRows(tccr, x0, y0, delta, gid))
  }

  function EvaluatesWith(tccr: Hash): EvaluateRule {
    (x: Block, y: Block, rows: EncryptedGate, gid: nat) => EvaluateAnd(tccr, x, y, rows, gid)
  }

  /** The rules are inverse to each other: evaluating what was garbled yields the label of the AND of the two bits. */
  ghost predicate Matching(garble: GarbleRule, evaluate: EvaluateRule, delta: Block) {
    forall x0: Block, y0: Block, x: Block, y: Block, a: bool, b: bool, gid: nat ::
      Encodes(x, x0, a, delta) && Encodes(y, y0, b, delta) ==>
        Encodes(evaluate(x, y, garble(x0, y0, gid).1, gid), garble(x0, y0, gid).0, a && b, delta)
  }

  lemma HalfGatesMatch(tccr: Hash, delta: Block)
    requires delta[0]
    ensures Matching(GarblesWith(tccr, delta), EvaluatesWith(tccr), delta)
  {
    var garble, evaluate := GarblesWith(tccr, delta), EvaluatesWith(tccr);
    forall x0: Block, y0: Block, x: Block, y: Block, a: bool, b: bool, gid: nat
      | Encodes(x, x0, a, delta) && Encodes(y, y0, b, delta)
      ensures Encodes(evaluate(x, y, garble(x0, y0, gid).1, gid), garble(x0, y0, gid).0, a && b, delta)
    {
      AndGateCorrect(tccr, x0, y0, x, y, a, b, delta, gid);
    }
  }

  // Whole gate lists.

  /** The id of the next AND gate after the given gates. */
  function GateId(gates: seq<Gate>): nat {
    1 + 2 * AndCount(gates)
  }

  function GarbledValue(g: Gate, labels: seq<Block>, delta: Block, garble: GarbleRule, gid: nat): Block
    requires GateFits(g, |labels|)
  {
    match g
    case XorGate(x, y, _) => Xor(labels[x], labels[y])
    case AndGate(x, y, _) => garble(labels[x], labels[y], gid).0
    case InvGate(x, _) => Xor(labels[x], delta)
    case IdGate(x, _) => labels[x]
  }

  /** The garbler's zero labels after garbling `gates` from the buffer `start`. */
  ghost function ZeroLabels(gates: seq<Gate>, start: seq<Block>, delta: Block, garble: GarbleRule): (r: seq<Block>)
    requires Fits(gates, |start|)
    ensures |r| == |start|
  {
    if gates == [] then start
    else
      var n := |gates| - 1;
      var before := ZeroLabels(gates[..n], start, delta, garble);
      before[gates[n].z := GarbledValue(gates[n], before, delta, garble, GateId(gates[..n]))]
  }

  /** The encrypted gates the garbler emits for `gates`. */
  ghost function Tables(gates: seq<Gate>, start: seq<Block>, delta: Block, garble: GarbleRule): (r: seq<EncryptedGate>)
    requires Fits(gates, |start|)
    ensures |r| == AndCount(gates)
  {
    if gates == [] then []
    else
      var n := |gates| - 1;
      var before := Tables(gates[..n], start, delta, garble);
      if gates[n].AndGate? then
        var labels := ZeroLabels(gates[..n], start, delta, garble);
        before + [garble(labels[gates[n].x], labels[gates[n].y], GateId(gates[..n])).1]
      else before
  }

  function EvaluatedValue(g: Gate, labels: seq<Block>, rows: EncryptedGate, evaluate: EvaluateRule, gid: nat): Block
    requires GateFits(g, |labels|)
  {
    match g
    case XorGate(x, y, _) => Xor(labels[x], labels[y])
    case AndGate(x, y, _) => evaluate(labels[x], labels[y], rows, gid)
    case InvGate(x, _) => labels[x]
    case IdGate(x, _) => labels[x]
  }

  /** The evaluator's active labels after evaluating `gates` with the given tables. */
  ghost function ActiveLabels(gates: seq<Gate>, start: seq<Block>, tables: seq<EncryptedGate>,
                              evaluate: EvaluateRule): (r: seq<Block>)
    requires Fits(gates, |start|)
    ensures |r| == |start|
  {
    if gates == [] then start
    else
      var n := |gates| - 1;
      var before := ActiveLabels(gates[..n], start, tables, evaluate);
      before[gates[n].z := EvaluatedValue(gates[n], before, LastItem(gates, tables, DefaultGate()), evaluate,
                                          GateId(gates[..n]))]
  }

  // The wire correlation.

  /** On every wire defined by the first `k` gates, the active label encodes the wire's bit. */
  ghost predicate Correlated(c: Circuit, k: nat, active: seq<Block>, zero: seq<Block>, w: nat -> bool, delta: Block)
    requires k <= |c.gates|
  {
    forall v: nat | c.Defined(v, k) :: v < |active| && v < |zero| && Encodes(active[v], zero[v], w(v), delta)
  }

  lemma {:induction false} TablesPrefix(gates: seq<Gate>, k: nat, start: seq<Block>, delta: Block, garble: GarbleRule)
    requires Fits(gates, |start|) && k <= |gates|
    ensures Tables(gates[..k], start, delta, garble) <= Tables(gates, start, delta, garble)
  {
    if k == |gates| {
      assert gates[..k] == gates;
    } else {
      var n := |gates| - 1;
      TablesPrefix(gates[..n], k, start, delta, garble);
      assert gates[..n][..k] == gates[..k];
    }
  }

  /** Garbling one more gate. */
  lemma GarbleStep(gates: seq<Gate>, k: nat, start: seq<Block>, delta: Block, garble: GarbleRule, before: seq<Block>,
                   gid: nat)
    requires Fits(gates, |start|) && k < |gates| && gid == GateId(gates[..k])
    requires before == ZeroLabels(gates[..k], start, delta, garble)
    ensures ZeroLabels(gates[..k + 1], start, delta, garble)
        == before[gates[k].z := GarbledValue(gates[k], before, delta, garble, gid)]
    ensures gates[k].AndGate? ==> AndCount(gates[..k]) < AndCount(gates)
    ensures gates[k].AndGate?
        ==> Tables(gates, start, delta, garble)[AndCount(gates[..k])]
            == garble(before[gates[k].x], before[gates[k].y], gid).1
  {
    LastGate(gates, k + 1);
    TablesPrefix(gates, k + 1, start, delta, garble);
  }

  /** Evaluating one more gate. */
  lemma EvaluateStep(gates: seq<Gate>, k: nat, start: seq<Block>, tables: seq<EncryptedGate>, evaluate: EvaluateRule,
                     before: seq<Block>, gid: nat,
                     rows: EncryptedGate, after: seq<Block>, tables': seq<EncryptedGate>)
    requires Fits(gates, |start|) && k < |gates| && gid == GateId(gates[..k]) && AndCount(gates[..k]) == |tables|
    requires before == ActiveLabels(gates[..k], start, tables, evaluate)
    requires after == before[gates[k].z := EvaluatedValue(gates[k], before, rows, evaluate, gid)]
    requires tables' == if gates[k].AndGate? then tables + [rows] else tables
    ensures after == ActiveLabels(gates[..k + 1], start, tables', evaluate)
  {
    LastGate(gates, k + 1);
    ActiveLabelsExtend(gates[..k], start, tables, rows, evaluate);
  }

  /** Tables beyond the AND gates evaluated so far are not looked at. */
  lemma {:induction false} ActiveLabelsExtend(gates: seq<Gate>, start: seq<Block>, tables: seq<EncryptedGate>,
                                              rows: EncryptedGate, evaluate: EvaluateRule)
    requires Fits(gates, |start|) && AndCount(gates) <= |tables|
    ensures ActiveLabels(gates, start, tables + [rows], evaluate) == ActiveLabels(gates, start, tables, evaluate)
  {
    if gates != [] {
      ActiveLabelsExtend(gates[..|gates| - 1], start, tables, rows, evaluate);
    }
  }

  /** XOR, INV and ID gates keep the correlation without a table. */
  lemma FreeGateCorrect(g: Gate, active: seq<Block>, zero: seq<Block>, w: nat -> bool, delta: Block,
                        rows: EncryptedGate,
                        garble: GarbleRule, evaluate: EvaluateRule, gid: nat)
    requires !g.AndGate? && GateFits(g, |active|) && GateFits(g, |zero|)
    requires forall v: nat | Reads(g, v) :: Encodes(active[v], zero[v], w(v), delta)
    ensures Encodes(EvaluatedValue(g, active, rows, evaluate, gid), GarbledValue(g, zero, delta, garble, gid),
                    GateValue(g, w), delta)
  {
    assert Reads(g, g.x);
    match g
    case XorGate(x, y, _) =>
      assert Reads(g, y);
      XorLabels(active[x], active[y], zero[x], zero[y], w(x), w(y), delta);
    case InvGate(x, _) =>
      XorLabels(active[x], ZERO, zero[x], delta, w(x), true, delta);
    case IdGate(x, _) =>
  }

  lemma XorLabels(x: Block, y: Block, x0: Block, y0: Block, a: bool, b: bool, delta: Block)
    requires Encodes(x, x0, a, delta) && Encodes(y, y0, b, delta)
    ensures Encodes(Xor(x, y), Xor(x0, y0), a != b, delta)
  {
  }

  /** The gate's input wires are correlated. */
  ghost predicate ReadsEncoded(g: Gate, active: seq<Block>, zero: seq<Block>, w: nat -> bool, delta: Block)
    requires GateFits(g, |active|) && GateFits(g, |zero|)
  {
    forall v: nat | Reads(g, v) :: Encodes(active[v], zero[v], w(v), delta)
  }

  lemma AndGateStep(g: Gate, active: seq<Block>, zero: seq<Block>, w: nat -> bool, delta: Block, rows: EncryptedGate,
                    garble: GarbleRule, evaluate: EvaluateRule, gid: nat)
    requires g.AndGate? && GateFits(g, |active|) && GateFits(g, |zero|) && ReadsEncoded(g, active, zero, w, delta)
    requires Matching(garble, evaluate, delta)
    requires rows == garble(zero[g.x], zero[g.y], gid).1
    ensures Encodes(EvaluatedValue(g, active, rows, evaluate, gid), GarbledValue(g, zero, delta, garble, gid),
                    GateValue(g, w), delta)
  {
    assert Reads(g, g.x) && Reads(g, g.y);
    assert Encodes(active[g.x], zero[g.x], w(g.x), delta) && Encodes(active[g.y], zero[g.y], w(g.y), delta);
  }

  /** The rows the evaluator uses for the last of `gates` are those the garbler made for it. */
  lemma TableMatches(gates: seq<Gate>, k: nat, zero0: seq<Block>, delta: Block, garble: GarbleRule,
                     tables: seq<EncryptedGate>)
    requires Fits(gates, |zero0|) && 0 < k <= |gates| && gates[k - 1].AndGate?
    requires Tables(gates, zero0, delta, garble) <= tables
    ensures Fits(gates[..k - 1], |zero0|)
    ensures var zero := ZeroLabels(gates[..k - 1], zero0, delta, garble);
            LastItem(gates[..k], tables, DefaultGate())
              == garble(zero[gates[k - 1].x], zero[gates[k - 1].y], GateId(gates[..k - 1])).1
  {
    LastGate(gates, k);
    TablesPrefix(gates, k, zero0, delta, garble);
    var i := AndCount(gates[..k - 1]);
    assert tables[i] == Tables(gates[..k], zero0, delta, garble)[i];
  }

  /** A wire written for the first time does not disturb the others. */
  lemma CorrelatedStep(c: Circuit, k: nat, active: seq<Block>, zero: seq<Block>, w: nat -> bool, delta: Block,
                       a: Block, z: Block)
    requires c.WellFormed() && k < |c.gates| && c.feedCount <= |active| && c.feedCount <= |zero|
    requires Correlated(c, k, active, zero, w, delta) && Encodes(a, z, w(c.gates[k].z), delta)
    ensures Correlated(c, k + 1, active[c.gates[k].z := a], zero[c.gates[k].z := z], w, delta)
  {
    forall v: nat | c.Defined(v, k + 1)
      ensures v < |active| && v < |zero|
          && Encodes(active[c.gates[k].z := a][v], zero[c.gates[k].z := z][v], w(v), delta)
    {
      if v != c.gates[k].z {
        assert c.Defined(v, k);
      }
    }
  }

  lemma StepReads(c: Circuit, k: nat, active: seq<Block>, zero: seq<Block>, w: nat -> bool, delta: Block)
    requires c.WellFormed() && k < |c.gates| && GateFits(c.gates[k], |active|) && GateFits(c.gates[k], |zero|)
    requires Correlated(c, k, active, zero, w, delta)
    ensures ReadsEncoded(c.gates[k], active, zero, w, delta)
  {
    forall v: nat | Reads(c.gates[k], v) ensures Encodes(active[v], zero[v], w(v), delta) {
      assert c.Defined(v, k);
    }
  }

  /** With matching AND rules and the garbler's tables, each gate keeps the correlation. */
  lemma {:induction false} WiresCorrelated(c: Circuit, k: nat, active0: seq<Block>, zero0: seq<Block>, w: nat -> bool,
                                           delta: Block, garble: GarbleRule, evaluate: EvaluateRule,
                                             tables: seq<EncryptedGate>)
    requires c.WellFormed() && k <= |c.gates| && c.feedCount <= |active0| && c.feedCount <= |zero0|
    requires Matching(garble, evaluate, delta)
    requires forall j | 0 <= j < |c.gates| :: Satisfies(c.gates[j], w)
    requires Correlated(c, 0, active0, zero0, w, delta)
    requires Fits(c.gates, |zero0|) && Tables(c.gates, zero0, delta, garble) <= tables
    requires Fits(c.gates[..k], |active0|) && Fits(c.gates[..k], |zero0|)
    ensures Correlated(c, k, ActiveLabels(c.gates[..k], active0, tables, evaluate),
                       ZeroLabels(c.gates[..k], zero0, delta, garble), w, delta)
  {
    if k > 0 {
      var g := c.gates[k - 1];
      LastGate(c.gates, k);
      FitsPrefix(c, k - 1, |active0|);
      FitsPrefix(c, k - 1, |zero0|);
      WiresCorrelated(c, k - 1, active0, zero0, w, delta, garble, evaluate, tables);
      var active := ActiveLabels(c.gates[..k - 1], active0, tables, evaluate);
      var zero := ZeroLabels(c.gates[..k - 1], zero0, delta, garble);
      var rows, gid := LastItem(c.gates[..k], tables, DefaultGate()), GateId(c.gates[..k - 1]);
      StepReads(c, k - 1, active, zero, w, delta);
      if g.AndGate? {
        TableMatches(c.gates, k, zero0, delta, garble, tables);
        AndGateStep(g, active, zero, w, delta, rows, garble, evaluate, gid);
      } else {
        FreeGateCorrect(g, active, zero, w, delta, rows, garble, evaluate, gid);
      }
      CorrelatedStep(c, k - 1, active, zero, w, delta, EvaluatedValue(g, active, rows, evaluate, gid),
                     GarbledValue(g, zero, delta, garble, gid));
    }
  }

  /** Half-gate garbling is correct: with the garbler's tables, and possibly more after them, the evaluator's label
      on every wire is the garbler's zero label XOR bit·delta, from any buffers that are correlated on the inputs. */
  lemma GarblingCorrect(c: Circuit, active0: seq<Block>, zero0: seq<Block>, w: nat -> bool, delta: Block, tccr: Hash,
                        tables: seq<EncryptedGate>)
    requires c.WellFormed() && c.feedCount <= |active0| && c.feedCount <= |zero0| && delta[0]
    requires forall j | 0 <= j < |c.gates| :: Satisfies(c.gates[j], w)
    requires forall i: nat | i < c.inputs :: Encodes(active0[i], zero0[i], w(i), delta)
    requires Fits(c.gates, |zero0|) && Fits(c.gates, |active0|)
    requires Tables(c.gates, zero0, delta, GarblesWith(tccr, delta)) <= tables
    ensures Correlated(c, |c.gates|, ActiveLabels(c.gates, active0, tables, EvaluatesWith(tccr)),
                       ZeroLabels(c.gates, zero0, delta, GarblesWith(tccr, delta)), w, delta)
  {
    HalfGatesMatch(tccr, delta);
    assert c.gates[..|c.gates|] == c.gates;
    WiresCorrelated(c, |c.gates|, active0, zero0, w, delta, GarblesWith(tccr, delta), EvaluatesWith(tccr), tables);
  }

  // Tweaks.

  /** The two hashes agree under tweak `j`. */
  ghost predicate AgreeAt(h: Hash, h': Hash, j: nat) {
    forall b: Block :: h(j, b) == h'(j, b)
  }

  ghost predicate Vanishes(h: Hash, j: nat) {
    forall b: Block :: h(j, b) == ZERO
  }

  /** Of the hash, the generator's row depends only on tweak `gid` and the evaluator's row only on tweak `gid + 1`;
      where the hash vanishes they are delta under the permute bit of `y` and the zero label of `x`. */
  lemma RowTweaks(h: Hash, h': Hash, x0: Block, y0: Block, delta: Block, gid: nat)
    ensures var rows, rows' := GarbleRows(h, x0, y0, delta, gid), GarbleRows(h', x0, y0, delta, gid);
      && (AgreeAt(h, h', gid) ==> rows.generator == rows'.generator)
      && (AgreeAt(h, h', gid + 1) ==> rows.evaluator == rows'.evaluator)
      && (Vanishes(h, gid) ==> rows.generator == Scale(y0[0], delta))
      && (Vanishes(h, gid + 1) ==> rows.evaluator == x0)
  {
    if Vanishes(h, gid) {
      XorZero(ZERO);
      assert Xor(ZERO, Scale(y0[0], delta)) == Scale(y0[0], delta);
    }
    if Vanishes(h, gid + 1) {
      XorZero(ZERO);
      assert Xor(ZERO, x0) == x0;
    }
  }

  /** The rows of `table` are what any hash that agrees with `h` at the one tweak of the row gives. */
  ghost predicate SameTable(h: Hash, h': Hash, x0: Block, y0: Block, delta: Block, i: nat, table: EncryptedGate) {
    var alone := GarbleRows(h', x0, y0, delta, 2 * i + 1);
    && (AgreeAt(h, h', 2 * i + 1) ==> table.generator == alone.generator)
    && (AgreeAt(h, h', 2 * i + 2) ==> table.evaluator == alone.evaluator)
  }

  lemma TableAt(gates: seq<Gate>, k: nat, start: seq<Block>, delta: Block, garble: GarbleRule, labels: seq<Block>,
                i: nat)
    requires k < |gates| && gates[k].AndGate? && Fits(gates, |start|) && Fits(gates[..k], |start|)
    requires labels == ZeroLabels(gates[..k], start, delta, garble) && i == AndCount(gates[..k])
    ensures i < AndCount(gates) && gates[k].x < |labels| && gates[k].y < |labels|
    ensures Tables(gates, start, delta, garble)[i] == garble(labels[gates[k].x], labels[gates[k].y], 2 * i + 1).1
  {
    GarbleStep(gates, k, start, delta, garble, labels, GateId(gates[..k]));
  }

  lemma RuleRows(h: Hash, delta: Block, garble: GarbleRule, x0: Block, y0: Block, gid: nat)
    requires garble == GarblesWith(h, delta)
    ensures garble(x0, y0, gid).1 == GarbleRows(h, x0, y0, delta, gid)
  {
  }

  /** The table of the `i`-th AND gate uses the hash under tweaks `2·i + 1` and `2·i + 2` and no others: its generator
      row only under the first, its evaluator row only under the second. */
  lemma TableTweaks(gates: seq<Gate>, k: nat, start: seq<Block>, delta: Block, h: Hash, h': Hash, garble: GarbleRule,
                    labels: seq<Block>, i: nat)
    requires k < |gates| && gates[k].AndGate? && Fits(gates, |start|) && Fits(gates[..k], |start|)
    requires garble == GarblesWith(h, delta) && labels == ZeroLabels(gates[..k], start, delta, garble)
    requires i == AndCount(gates[..k])
    ensures i < AndCount(gates) && gates[k].x < |labels| && gates[k].y < |labels|
    ensures SameTable(h, h', labels[gates[k].x], labels[gates[k].y], delta, i,
                      Tables(gates, start, delta, garble)[i])
  {
    TableAt(gates, k, start, delta, garble, labels, i);
    var x0, y0 := labels[gates[k].x], labels[gates[k].y];
    RuleRows(h, delta, garble, x0, y0, 2 * i + 1);
    RowTweaks(h, h', x0, y0, delta, 2 * i + 1);
  }

  /** Different AND gates have different numbers, hence disjoint pairs of tweaks. */
  lemma TweaksDisjoint(gates: seq<Gate>, j: nat, k: nat)
    requires j < k < |gates| && gates[j].AndGate? && gates[k].AndGate?
    ensures AndCount(gates[..j]) < AndCount(gates[..k]) && GateId(gates[..j]) + 1 < GateId(gates[..k])
  {
    AndCountStep(gates, j);
    AndCountMonotone(gates, j + 1, k);
  }

  // Reused buffers.

  /** The two buffers agree on every wire defined by the first `k` gates. */
  ghost predicate Agree(c: Circuit, k: nat, s: seq<Block>, t: seq<Block>)
    requires k <= |c.gates|
  {
    forall v: nat | c.Defined(v, k) :: v < |s| && v < |t| && s[v] == t[v]
  }

  lemma AgreeStep(c: Circuit, k: nat, s: seq<Block>, t: seq<Block>, z: Block)
    requires c.WellFormed() && k < |c.gates| && c.feedCount <= |s| && c.feedCount <= |t| && Agree(c, k, s, t)
    ensures Agree(c, k + 1, s[c.gates[k].z := z], t[c.gates[k].z := z])
  {
    var s', t' := s[c.gates[k].z := z], t[c.gates[k].z := z];
    forall v: nat | c.Defined(v, k + 1)
      ensures v < |s'| && v < |t'| && s'[v] == t'[v]
    {
      if v != c.gates[k].z {
        assert c.Defined(v, k);
      }
    }
  }

  lemma AgreeReads(c: Circuit, k: nat, s: seq<Block>, t: seq<Block>)
    requires c.WellFormed() && k < |c.gates| && GateFits(c.gates[k], |s|) && GateFits(c.gates[k], |t|)
        && Agree(c, k, s, t)
    ensures var g := c.gates[k]; s[g.x] == t[g.x] && (g.XorGate? || g.AndGate? ==> s[g.y] == t[g.y])
  {
    var g := c.gates[k];
    assert Reads(g, g.x) && c.Defined(g.x, k);
    if g.XorGate? || g.AndGate? {
      assert Reads(g, g.y) && c.Defined(g.y, k);
    }
  }

  /** The garbler's labels and tables depend only on the input labels, not on what the buffer held before. */
  lemma {:induction false} GarblingIgnoresBuffer(c: Circuit, k: nat, s: seq<Block>, t: seq<Block>, delta: Block,
                                                 garble: GarbleRule)
    requires c.WellFormed() && k <= |c.gates| && c.feedCount <= |s| && c.feedCount <= |t| && Agree(c, 0, s, t)
    requires Fits(c.gates[..k], |s|) && Fits(c.gates[..k], |t|)
    ensures Agree(c, k, ZeroLabels(c.gates[..k], s, delta, garble), ZeroLabels(c.gates[..k], t, delta, garble))
    ensures Tables(c.gates[..k], s, delta, garble) == Tables(c.gates[..k], t, delta, garble)
  {
    if k > 0 {
      LastGate(c.gates, k);
      FitsPrefix(c, k - 1, |s|);
      FitsPrefix(c, k - 1, |t|);
      GarblingIgnoresBuffer(c, k - 1, s, t, delta, garble);
      var s', t' := ZeroLabels(c.gates[..k - 1], s, delta, garble), ZeroLabels(c.gates[..k - 1], t, delta, garble);
      AgreeReads(c, k - 1, s', t');
      AgreeStep(c, k - 1, s', t', GarbledValue(c.gates[k - 1], s', delta, garble, GateId(c.gates[..k - 1])));
    }
  }

  lemma LastActive(gates: seq<Gate>, k: nat, start: seq<Block>, tables: seq<EncryptedGate>, evaluate: EvaluateRule)
    requires 0 < k <= |gates| && Fits(gates[..k], |start|) && Fits(gates[..k - 1], |start|)
    ensures var before := ActiveLabels(gates[..k - 1], start, tables, evaluate);
            && GateFits(gates[k - 1], |before|)
            && ActiveLabels(gates[..k], start, tables, evaluate)
               == before[gates[k - 1].z := EvaluatedValue(gates[k - 1], before,
                                                          LastItem(gates[..k], tables, DefaultGate()), evaluate,
                                                            GateId(gates[..k - 1]))]
  {
    LastGate(gates, k);
  }

  /** A gate's value depends on the labels it reads, and on the rows only if it is an AND gate. */
  lemma EvaluatedAgrees(g: Gate, s: seq<Block>, t: seq<Block>, rows: EncryptedGate, rows': EncryptedGate,
                        evaluate: EvaluateRule, gid: nat)
    requires GateFits(g, |s|) && GateFits(g, |t|) && s[g.x] == t[g.x] && (g.XorGate? || g.AndGate? ==> s[g.y] == t[g.y])
    requires g.AndGate? ==> rows == rows'
    ensures EvaluatedValue(g, s, rows, evaluate, gid) == EvaluatedValue(g, t, rows', evaluate, gid)
  {
  }

  lemma SameRows(gates: seq<Gate>, k: nat, tables: seq<EncryptedGate>, tables': seq<EncryptedGate>)
    requires 0 < k <= |gates| && AndCount(gates[..k]) <= |tables| && tables <= tables'
    ensures AndCount(gates[..k - 1]) <= |tables|
    ensures gates[k - 1].AndGate?
        ==> LastItem(gates[..k], tables, DefaultGate()) == LastItem(gates[..k], tables', DefaultGate())
  {
    LastGate(gates, k);
    AndCountStep(gates, k - 1);
  }

  /** The evaluator's labels depend only on the input labels and the tables of the circuit's AND gates. */
  lemma {:induction false} EvaluationIgnoresBuffer(c: Circuit, k: nat, s: seq<Block>, t: seq<Block>,
                                                   tables: seq<EncryptedGate>, tables': seq<EncryptedGate>,
                                                     evaluate: EvaluateRule)
    requires c.WellFormed() && k <= |c.gates| && c.feedCount <= |s| && c.feedCount <= |t| && Agree(c, 0, s, t)
    requires Fits(c.gates[..k], |s|) && Fits(c.gates[..k], |t|)
    requires AndCount(c.gates[..k]) <= |tables| && tables <= tables'
    ensures Agree(c, k, ActiveLabels(c.gates[..k], s, tables, evaluate),
                  ActiveLabels(c.gates[..k], t, tables', evaluate))
  {
    if k > 0 {
      FitsPrefix(c, k - 1, |s|);
      FitsPrefix(c, k - 1, |t|);
      SameRows(c.gates, k, tables, tables');
      EvaluationIgnoresBuffer(c, k - 1, s, t, tables, tables', evaluate);
      var s', t' := ActiveLabels(c.gates[..k - 1], s, tables, evaluate),
          ActiveLabels(c.gates[..k - 1], t, tables', evaluate);
      LastActive(c.gates, k, s, tables, evaluate);
      LastActive(c.gates, k, t, tables', evaluate);
      AgreeReads(c, k - 1, s', t');
      var rows, rows' := LastItem(c.gates[..k], tables, DefaultGate()), LastItem(c.gates[..k], tables', DefaultGate());
      EvaluatedAgrees(c.gates[k - 1], s', t', rows, rows', evaluate, GateId(c.gates[..k - 1]));
      AgreeStep(c, k - 1, s', t', EvaluatedValue(c.gates[k - 1], s', rows, evaluate, GateId(c.gates[..k - 1])));
    }
  }
}
