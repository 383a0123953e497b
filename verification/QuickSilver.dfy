/** QuickSilver circuit execution: prover MACs and verifier keys stay correlated on every wire. */
module QuickSilver {
  import opened Bits
  import opened Circuits
  import opened ConsistencyCheck

  function SetLsb(b: Block, bit: bool): (r: Block)
    ensures r[0] == bit && forall i | 0 < i < 128 :: r[i] == b[i]
  {
    [bit] + b[1..]
  }

  /** The key of a MAC whose bit is flipped when `a` is set; its pointer bit is cleared. */
  function AdjustKey(key: Block, a: bool, delta: Block): (r: Block)
    ensures !r[0]
  {
    SetLsb(Xor(key, Scale(a, delta)), false)
  }

  /** The wire invariant: `mac == key + bit·delta`, the key's pointer bit is 0 and the MAC's is the bit. */
  predicate Auth(mac: Block, key: Block, bit: bool, delta: Block) {
    mac == Xor(key, Scale(bit, delta)) && !key[0] && mac[0] == bit
  }

  /** A correlated OT on a random mask. */
  predicate OtCorrelated(mac: Block, key: Block, mask: bool, delta: Block) {
    mac == Xor(key, Scale(mask, delta))
  }

  // One gate.

  lemma XorAuth(mx: Block, my: Block, kx: Block, ky: Block, a: bool, b: bool, delta: Block)
    requires Auth(mx, kx, a, delta) && Auth(my, ky, b, delta)
    ensures Auth(Xor(mx, my), Xor(kx, ky), a != b, delta)
  {
  }

  lemma InvAuth(mac: Block, key: Block, bit: bool, delta: Block)
    requires Auth(mac, key, bit, delta) && delta[0]
    ensures Auth(SetLsb(mac, !mac[0]), AdjustKey(key, true, delta), !bit, delta)
  {
    var m, k := SetLsb(mac, !mac[0]), AdjustKey(key, true, delta);
    forall i | 0 <= i < 128 ensures m[i] == Xor(k, Scale(!bit, delta))[i] {
    }
  }

  /** Derandomizing a gate OT onto the bit `v`. */
  lemma GateAuth(mac: Block, key: Block, mask: bool, v: bool, delta: Block)
    requires OtCorrelated(mac, key, mask, delta) && delta[0]
    ensures Auth(SetLsb(mac, v), AdjustKey(key, mask != v, delta), v, delta)
  {
    var m, k := SetLsb(mac, v), AdjustKey(key, mask != v, delta);
    forall i | 0 <= i < 128 ensures m[i] == Xor(k, Scale(v, delta))[i] {
    }
  }

  // Whole gate lists.

  function MacValue(g: Gate, macs: seq<Block>, gateMac: Block): Block
    requires GateFits(g, |macs|)
  {
    match g
    case XorGate(x, y, _) => Xor(macs[x], macs[y])
    case AndGate(x, y, _) => SetLsb(gateMac, macs[x][0] && macs[y][0])
    case InvGate(x, _) => SetLsb(macs[x], !macs[x][0])
    case IdGate(x, _) => macs[x]
  }

  /** The prover's MACs after `gates`. */
  ghost function Macs(gates: seq<Gate>, start: seq<Block>, gateMacs: seq<Block>): (r: seq<Block>)
    requires Fits(gates, |start|)
    ensures |r| == |start|
    decreases |gates|, 1
  {
    if gates == [] then start
    else
      var n := |gates| - 1;
      Macs(gates[..n], start, gateMacs)[gates[n].z := MacOut(gates, start, gateMacs)]
  }

  /** The MAC written by the last of `gates`. */
  ghost function MacOut(gates: seq<Gate>, start: seq<Block>, gateMacs: seq<Block>): Block
    requires Fits(gates, |start|) && gates != []
    decreases |gates|, 0
  {
    var n := |gates| - 1;
    MacValue(gates[n], Macs(gates[..n], start, gateMacs), LastItem(gates, gateMacs, ZERO))
  }

  /** The triple recorded for an AND gate, given the wires before it and its output. */
  function GateTriple(g: Gate, wires: seq<Block>, z: Block): Triple
    requires g.AndGate? && GateFits(g, |wires|)
  {
    Triple(wires[g.x], wires[g.y], z)
  }

  ghost function MacTriples(gates: seq<Gate>, start: seq<Block>, gateMacs: seq<Block>): (r: seq<Triple>)
    requires Fits(gates, |start|)
    ensures |r| == AndCount(gates)
  {
    if gates == [] then []
    else
      var n := |gates| - 1;
      var before := Macs(gates[..n], start, gateMacs);
      var rest := MacTriples(gates[..n], start, gateMacs);
      if gates[n].AndGate? then rest + [GateTriple(gates[n], before, MacOut(gates, start, gateMacs))]
      else rest
  }

  /** The adjustment bits the prover sends. */
  ghost function Adjusts(gates: seq<Gate>, start: seq<Block>, gateMacs: seq<Block>, masks: seq<bool>): (r: seq<bool>)
    requires Fits(gates, |start|)
    ensures |r| == AndCount(gates)
  {
    if gates == [] then []
    else
      var n := |gates| - 1;
      var before := Macs(gates[..n], start, gateMacs);
      var rest := Adjusts(gates[..n], start, gateMacs, masks);
      if gates[n].AndGate?
        then rest + [LastItem(gates, masks, false) != (before[gates[n].x][0] && before[gates[n].y][0])]
      else rest
  }

  function KeyValue(g: Gate, keys: seq<Block>, gateKey: Block, adjust: bool, delta: Block): Block
    requires GateFits(g, |keys|)
  {
    match g
    case XorGate(x, y, _) => Xor(keys[x], keys[y])
    case AndGate(x, y, _) => AdjustKey(gateKey, adjust, delta)
    case InvGate(x, _) => AdjustKey(keys[x], true, delta)
    case IdGate(x, _) => keys[x]
  }

  /** The verifier's keys after `gates`, given the adjustment bits received. */
  ghost function Keys(gates: seq<Gate>, start: seq<Block>, gateKeys: seq<Block>, adjust: seq<bool>,
                      delta: Block): (r: seq<Block>)
    requires Fits(gates, |start|)
    ensures |r| == |start|
    decreases |gates|, 1
  {
    if gates == [] then start
    else
      var n := |gates| - 1;
      Keys(gates[..n], start, gateKeys, adjust, delta)[gates[n].z := KeyOut(gates, start, gateKeys, adjust, delta)]
  }

  /** The key written by the last of `gates`. */
  ghost function KeyOut(gates: seq<Gate>, start: seq<Block>, gateKeys: seq<Block>, adjust: seq<bool>,
                        delta: Block): Block
    requires Fits(gates, |start|) && gates != []
    decreases |gates|, 0
  {
    var n := |gates| - 1;
    KeyValue(gates[n], Keys(gates[..n], start, gateKeys, adjust, delta), LastItem(gates, gateKeys, ZERO),
             LastItem(gates, adjust, false), delta)
  }

  ghost function KeyTriples(gates: seq<Gate>, start: seq<Block>, gateKeys: seq<Block>, adjust: seq<bool>,
                            delta: Block): (r: seq<Triple>)
    requires Fits(gates, |start|)
    ensures |r| == AndCount(gates)
  {
    if gates == [] then []
    else
      var n := |gates| - 1;
      var before := Keys(gates[..n], start, gateKeys, adjust, delta);
      var rest := KeyTriples(gates[..n], start, gateKeys, adjust, delta);
      if gates[n].AndGate? then rest + [GateTriple(gates[n], before, KeyOut(gates, start, gateKeys, adjust, delta))]
      else rest
  }

  // The wire invariant over a whole run.

  ghost predicate WiresAuth(c: Circuit, k: nat, macs: seq<Block>, keys: seq<Block>, w: nat -> bool, delta: Block)
    requires k <= |c.gates|
  {
    forall v: nat | c.Defined(v, k) :: v < |macs| && v < |keys| && Auth(macs[v], keys[v], w(v), delta)
  }

  lemma WiresAuthStep(c: Circuit, k: nat, macs: seq<Block>, keys: seq<Block>, w: nat -> bool, delta: Block, m: Block,
                      key: Block)
    requires c.WellFormed() && k < |c.gates| && c.feedCount <= |macs| && c.feedCount <= |keys|
    requires WiresAuth(c, k, macs, keys, w, delta) && Auth(m, key, w(c.gates[k].z), delta)
    ensures WiresAuth(c, k + 1, macs[c.gates[k].z := m], keys[c.gates[k].z := key], w, delta)
  {
    var macs', keys' := macs[c.gates[k].z := m], keys[c.gates[k].z := key];
    forall v: nat | c.Defined(v, k + 1)
      ensures v < |macs'| && v < |keys'| && Auth(macs'[v], keys'[v], w(v), delta)
    {
      if v != c.gates[k].z {
        assert c.Defined(v, k);
      }
    }
  }

  /** The input wires of gate `k` satisfy the invariant. */
  lemma GateInputsAuth(c: Circuit, k: nat, macs: seq<Block>, keys: seq<Block>, w: nat -> bool, delta: Block)
    requires c.WellFormed() && k < |c.gates| && GateFits(c.gates[k], |macs|) && GateFits(c.gates[k], |keys|)
    requires WiresAuth(c, k, macs, keys, w, delta)
    ensures InputsAuth(c.gates[k], macs, keys, w, delta)
  {
    var g := c.gates[k];
    assert Reads(g, g.x) && c.Defined(g.x, k);
    if g.XorGate? || g.AndGate? {
      assert Reads(g, g.y) && c.Defined(g.y, k);
    }
  }

  predicate InputsAuth(g: Gate, macs: seq<Block>, keys: seq<Block>, w: nat -> bool, delta: Block)
    requires GateFits(g, |macs|) && GateFits(g, |keys|)
  {
    && Auth(macs[g.x], keys[g.x], w(g.x), delta)
    && (g.XorGate? || g.AndGate? ==> Auth(macs[g.y], keys[g.y], w(g.y), delta))
  }

  lemma GateStepAuth(g: Gate, macs: seq<Block>, keys: seq<Block>, w: nat -> bool, delta: Block, gateMac: Block,
                     gateKey: Block, mask: bool, adjust: bool)
    requires GateFits(g, |macs|) && GateFits(g, |keys|) && InputsAuth(g, macs, keys, w, delta) && delta[0]
    requires g.AndGate?
        ==> OtCorrelated(gateMac, gateKey, mask, delta) && adjust == (mask != (macs[g.x][0] && macs[g.y][0]))
    ensures Auth(MacValue(g, macs, gateMac), KeyValue(g, keys, gateKey, adjust, delta), GateValue(g, w), delta)
  {
    match g
    case XorGate(x, y, _) => XorAuth(macs[x], macs[y], keys[x], keys[y], w(x), w(y), delta);
    case AndGate(x, y, _) => GateAuth(gateMac, gateKey, mask, w(x) && w(y), delta);
    case InvGate(x, _) => InvAuth(macs[x], keys[x], w(x), delta);
    case IdGate(x, _) =>
  }

  lemma AuthImpliesAuthenticates(mac: Block, key: Block, bit: bool, delta: Block)
    requires Auth(mac, key, bit, delta)
    ensures Authenticates(mac, key, delta)
  {
  }

  /** The gate OTs of a run. */
  predicate OtsCorrelated(n: nat, gateMacs: seq<Block>, gateKeys: seq<Block>, masks: seq<bool>, delta: Block) {
    |gateMacs| == |gateKeys| == |masks| == n && forall i | 0 <= i < n ::
      OtCorrelated(gateMacs[i], gateKeys[i], masks[i], delta)
  }

  /** The triples of both parties authenticate each other and none is bad. */
  predicate GoodTriples(macs: seq<Triple>, keys: seq<Triple>, delta: Block) {
    AllAuthenticate(macs, keys, delta) && forall i | 0 <= i < |macs| :: !Bad(macs[i])
  }

  lemma GoodTriplesStep(macs: seq<Triple>, keys: seq<Triple>, delta: Block, m: Triple, k: Triple, a: bool, b: bool)
    requires GoodTriples(macs, keys, delta)
    requires Auth(m.x, k.x, a, delta) && Auth(m.y, k.y, b, delta) && Auth(m.z, k.z, a && b, delta)
    ensures GoodTriples(macs + [m], keys + [k], delta)
  {
    AuthImpliesAuthenticates(m.x, k.x, a, delta);
    AuthImpliesAuthenticates(m.y, k.y, b, delta);
    AuthImpliesAuthenticates(m.z, k.z, a && b, delta);
  }

  lemma AdjustsGrow(gates: seq<Gate>, n: nat, start: seq<Block>, gateMacs: seq<Block>, masks: seq<bool>)
    requires Fits(gates, |start|) && n + 1 == |gates|
    ensures Adjusts(gates[..n], start, gateMacs, masks) <= Adjusts(gates, start, gateMacs, masks)
  {
  }

  lemma {:induction false} AdjustsPrefix(gates: seq<Gate>, k: nat, start: seq<Block>, gateMacs: seq<Block>,
                                         masks: seq<bool>)
    requires Fits(gates, |start|) && k <= |gates|
    ensures Adjusts(gates[..k], start, gateMacs, masks) <= Adjusts(gates, start, gateMacs, masks)
  {
    if k == |gates| {
      assert gates[..k] == gates;
    } else {
      var n := |gates| - 1;
      assert gates[..n][..k] == gates[..k];
      AdjustsPrefix(gates[..n], k, start, gateMacs, masks);
      AdjustsGrow(gates, n, start, gateMacs, masks);
    }
  }

  /** The adjustment bit the verifier uses for the last gate is the one the prover computed for it. */
  lemma AdjustMatches(gates: seq<Gate>, k: nat, start: seq<Block>, gateMacs: seq<Block>, masks: seq<bool>,
                      adjust: seq<bool>)
    requires Fits(gates, |start|) && 0 < k <= |gates| && gates[k - 1].AndGate? && Fits(gates[..k - 1], |start|)
    requires Adjusts(gates, start, gateMacs, masks) <= adjust && |masks| == AndCount(gates)
    ensures AndCount(gates[..k - 1]) < |masks|
    ensures var macs := Macs(gates[..k - 1], start, gateMacs);
            LastItem(gates[..k], adjust, false)
              == (masks[AndCount(gates[..k - 1])] != (macs[gates[k - 1].x][0] && macs[gates[k - 1].y][0]))
  {
    LastGate(gates, k);
    AdjustsPrefix(gates, k, start, gateMacs, masks);
    var i := AndCount(gates[..k - 1]);
    assert adjust[i] == Adjusts(gates[..k], start, gateMacs, masks)[i];
  }

  /** Both executions after `k` gates. */
  ghost predicate RunAuth(c: Circuit, k: nat, macs0: seq<Block>, keys0: seq<Block>, w: nat -> bool, delta: Block,
                          gateMacs: seq<Block>, gateKeys: seq<Block>, adjust: seq<bool>)
    requires k <= |c.gates| && Fits(c.gates[..k], |macs0|) && Fits(c.gates[..k], |keys0|)
  {
    && WiresAuth(c, k, Macs(c.gates[..k], macs0, gateMacs), Keys(c.gates[..k], keys0, gateKeys, adjust, delta), w,
                 delta)
    && GoodTriples(MacTriples(c.gates[..k], macs0, gateMacs), KeyTriples(c.gates[..k], keys0, gateKeys, adjust, delta),
                   delta)
  }

  /** One more gate on both sides, whose outputs satisfy the invariant. */
  lemma RunStep(c: Circuit, k: nat, macs0: seq<Block>, keys0: seq<Block>, w: nat -> bool, delta: Block,
                gateMacs: seq<Block>, gateKeys: seq<Block>, adjust: seq<bool>, macs: seq<Block>, keys: seq<Block>,
                  m: Block, key: Block)
    requires c.WellFormed() && k < |c.gates| && c.feedCount <= |macs0| && c.feedCount <= |keys0|
    requires Satisfies(c.gates[k], w) && Fits(c.gates[..k], |macs0|) && Fits(c.gates[..k], |keys0|)
    requires Fits(c.gates[..k + 1], |macs0|) && Fits(c.gates[..k + 1], |keys0|)
    requires GateFits(c.gates[k], |macs|) && GateFits(c.gates[k], |keys|)
        && InputsAuth(c.gates[k], macs, keys, w, delta)
    requires macs == Macs(c.gates[..k], macs0, gateMacs) && keys == Keys(c.gates[..k], keys0, gateKeys, adjust, delta)
    requires m == MacOut(c.gates[..k + 1], macs0, gateMacs)
        && key == KeyOut(c.gates[..k + 1], keys0, gateKeys, adjust, delta)
    requires RunAuth(c, k, macs0, keys0, w, delta, gateMacs, gateKeys, adjust) && Auth(m, key, w(c.gates[k].z), delta)
    ensures RunAuth(c, k + 1, macs0, keys0, w, delta, gateMacs, gateKeys, adjust)
  {
    var g := c.gates[k];
    LastGate(c.gates, k + 1);
    WiresAuthStep(c, k, macs, keys, w, delta, m, key);
    if g.AndGate? {
      GoodTriplesStep(MacTriples(c.gates[..k], macs0, gateMacs),
                      KeyTriples(c.gates[..k], keys0, gateKeys, adjust, delta), delta,
                      GateTriple(g, macs, m), GateTriple(g, keys, key), w(g.x), w(g.y));
    }
  }

  /** The OT of the last AND gate. */
  lemma LastOt(gates: seq<Gate>, n: nat, gateMacs: seq<Block>, gateKeys: seq<Block>, masks: seq<bool>, delta: Block)
    requires OtsCorrelated(n, gateMacs, gateKeys, masks, delta) && gates != [] && AndCount(gates[..|gates| - 1]) < n
    ensures OtCorrelated(LastItem(gates, gateMacs, ZERO), LastItem(gates, gateKeys, ZERO),
                         LastItem(gates, masks, false), delta)
    ensures LastItem(gates, masks, false) == masks[AndCount(gates[..|gates| - 1])]
  {
  }

  lemma OutValues(gates: seq<Gate>, k: nat, macs0: seq<Block>, keys0: seq<Block>, macs: seq<Block>, keys: seq<Block>,
                  delta: Block,
                  gateMacs: seq<Block>, gateKeys: seq<Block>, adjust: seq<bool>)
    requires k < |gates| && Fits(gates[..k + 1], |macs0|) && Fits(gates[..k + 1], |keys0|)
    requires Fits(gates[..k], |macs0|) && macs == Macs(gates[..k], macs0, gateMacs)
    requires Fits(gates[..k], |keys0|) && keys == Keys(gates[..k], keys0, gateKeys, adjust, delta)
    ensures GateFits(gates[k], |macs|) && GateFits(gates[k], |keys|)
    ensures MacOut(gates[..k + 1], macs0, gateMacs)
        == MacValue(gates[k], macs, LastItem(gates[..k + 1], gateMacs, ZERO))
    ensures KeyOut(gates[..k + 1], keys0, gateKeys, adjust, delta)
         == KeyValue(gates[k], keys, LastItem(gates[..k + 1], gateKeys, ZERO), LastItem(gates[..k + 1], adjust, false),
                     delta)
  {
    LastGate(gates, k + 1);
  }

  /** The OT and the adjustment bit that gate `k` takes, if it is an AND gate. */
  lemma GateItems(c: Circuit, k: nat, macs0: seq<Block>, macs: seq<Block>, delta: Block,
                  gateMacs: seq<Block>, gateKeys: seq<Block>, masks: seq<bool>, adjust: seq<bool>)
    requires c.WellFormed() && k < |c.gates| && GateFits(c.gates[k], |macs|) && c.gates[k].AndGate?
    requires OtsCorrelated(c.andCount, gateMacs, gateKeys, masks, delta)
    requires Fits(c.gates, |macs0|) && Fits(c.gates[..k], |macs0|) && macs == Macs(c.gates[..k], macs0, gateMacs)
    requires Adjusts(c.gates, macs0, gateMacs, masks) <= adjust
    ensures var upTo := c.gates[..k + 1];
            && OtCorrelated(LastItem(upTo, gateMacs, ZERO), LastItem(upTo, gateKeys, ZERO),
                            LastItem(upTo, masks, false), delta)
            && LastItem(upTo, adjust, false)
              == (LastItem(upTo, masks, false) != (macs[c.gates[k].x][0] && macs[c.gates[k].y][0]))
  {
    LastGate(c.gates, k + 1);
    AdjustMatches(c.gates, k + 1, macs0, gateMacs, masks, adjust);
    LastOt(c.gates[..k + 1], c.andCount, gateMacs, gateKeys, masks, delta);
  }

  /** The next gate keeps the invariant, given the prover's adjustment bit. */
  lemma NextGateAuth(c: Circuit, k: nat, macs0: seq<Block>, keys0: seq<Block>, macs: seq<Block>, keys: seq<Block>,
                     w: nat -> bool, delta: Block,
                     gateMacs: seq<Block>, gateKeys: seq<Block>, masks: seq<bool>, adjust: seq<bool>)
    requires c.WellFormed() && k < |c.gates| && GateFits(c.gates[k], |macs|) && GateFits(c.gates[k], |keys|) && delta[0]
    requires Satisfies(c.gates[k], w) && WiresAuth(c, k, macs, keys, w, delta)
        && OtsCorrelated(c.andCount, gateMacs, gateKeys, masks, delta)
    requires Fits(c.gates, |macs0|) && Fits(c.gates[..k], |macs0|) && macs == Macs(c.gates[..k], macs0, gateMacs)
    requires Adjusts(c.gates, macs0, gateMacs, masks) <= adjust
    requires Fits(c.gates[..k], |keys0|) && keys == Keys(c.gates[..k], keys0, gateKeys, adjust, delta)
    requires Fits(c.gates[..k + 1], |macs0|) && Fits(c.gates[..k + 1], |keys0|)
    ensures InputsAuth(c.gates[k], macs, keys, w, delta)
    ensures Auth(MacOut(c.gates[..k + 1], macs0, gateMacs), KeyOut(c.gates[..k + 1], keys0, gateKeys, adjust, delta),
                 w(c.gates[k].z), delta)
  {
    var g, upTo := c.gates[k], c.gates[..k + 1];
    GateInputsAuth(c, k, macs, keys, w, delta);
    OutValues(c.gates, k, macs0, keys0, macs, keys, delta, gateMacs, gateKeys, adjust);
    if g.AndGate? {
      GateItems(c, k, macs0, macs, delta, gateMacs, gateKeys, masks, adjust);
    }
    GateStepAuth(g, macs, keys, w, delta, LastItem(upTo, gateMacs, ZERO), LastItem(upTo, gateKeys, ZERO),
                 LastItem(upTo, masks, false), LastItem(upTo, adjust, false));
  }

  lemma {:induction false} RunCorrelated(c: Circuit, k: nat, macs0: seq<Block>, keys0: seq<Block>, w: nat -> bool,
                                         delta: Block,
                                         gateMacs: seq<Block>, gateKeys: seq<Block>, masks: seq<bool>,
                                           adjust: seq<bool>)
    requires c.WellFormed() && k <= |c.gates| && c.feedCount <= |macs0| && c.feedCount <= |keys0| && delta[0]
    requires forall j | 0 <= j < |c.gates| :: Satisfies(c.gates[j], w)
    requires WiresAuth(c, 0, macs0, keys0, w, delta) && OtsCorrelated(c.andCount, gateMacs, gateKeys, masks, delta)
    requires Fits(c.gates, |macs0|) && Adjusts(c.gates, macs0, gateMacs, masks) <= adjust
    requires Fits(c.gates[..k], |macs0|) && Fits(c.gates[..k], |keys0|)
    ensures RunAuth(c, k, macs0, keys0, w, delta, gateMacs, gateKeys, adjust)
  {
    if k > 0 {
      LastGate(c.gates, k);
      FitsPrefix(c, k - 1, |macs0|);
      FitsPrefix(c, k - 1, |keys0|);
      RunCorrelated(c, k - 1, macs0, keys0, w, delta, gateMacs, gateKeys, masks, adjust);
      var macs := Macs(c.gates[..k - 1], macs0, gateMacs);
      var keys := Keys(c.gates[..k - 1], keys0, gateKeys, adjust, delta);
      NextGateAuth(c, k - 1, macs0, keys0, macs, keys, w, delta, gateMacs, gateKeys, masks, adjust);
      RunStep(c, k - 1, macs0, keys0, w, delta, gateMacs, gateKeys, adjust, macs, keys,
              MacOut(c.gates[..k], macs0, gateMacs), KeyOut(c.gates[..k], keys0, gateKeys, adjust, delta));
    }
  }

  /** After a whole run: every wire is authenticated and every triple is good. */
  lemma ExecutionCorrect(c: Circuit, macs0: seq<Block>, keys0: seq<Block>, w: nat -> bool, delta: Block,
                         gateMacs: seq<Block>, gateKeys: seq<Block>, masks: seq<bool>, adjust: seq<bool>)
    requires c.WellFormed() && c.feedCount <= |macs0| && c.feedCount <= |keys0| && delta[0]
    requires forall j | 0 <= j < |c.gates| :: Satisfies(c.gates[j], w)
    requires forall i: nat | i < c.inputs :: Auth(macs0[i], keys0[i], w(i), delta)
    requires OtsCorrelated(c.andCount, gateMacs, gateKeys, masks, delta)
    requires Fits(c.gates, |macs0|) && Fits(c.gates, |keys0|) && adjust == Adjusts(c.gates, macs0, gateMacs, masks)
    ensures WiresAuth(c, |c.gates|, Macs(c.gates, macs0, gateMacs), Keys(c.gates, keys0, gateKeys, adjust, delta), w,
                      delta)
    ensures GoodTriples(MacTriples(c.gates, macs0, gateMacs), KeyTriples(c.gates, keys0, gateKeys, adjust, delta),
                        delta)
  {
    assert c.gates[..|c.gates|] == c.gates;
    RunCorrelated(c, |c.gates|, macs0, keys0, w, delta, gateMacs, gateKeys, masks, adjust);
  }

  /** The prover's next gate. */
  lemma ProverStep(gates: seq<Gate>, k: nat, start: seq<Block>, gateMacs: seq<Block>, masks: seq<bool>,
                   macs: seq<Block>, z: Block)
    requires Fits(gates, |start|) && k < |gates| && macs == Macs(gates[..k], start, gateMacs)
    requires gates[k].AndGate? ==> AndCount(gates[..k]) < |gateMacs| == |masks|
    requires z == MacValue(gates[k], macs, if gates[k].AndGate? then gateMacs[AndCount(gates[..k])] else ZERO)
    ensures Macs(gates[..k + 1], start, gateMacs) == macs[gates[k].z := z]
    ensures MacTriples(gates[..k + 1], start, gateMacs)
         == MacTriples(gates[..k], start, gateMacs) + if gates[k].AndGate? then [GateTriple(gates[k], macs, z)] else []
    ensures Adjusts(gates[..k + 1], start, gateMacs, masks)
         == Adjusts(gates[..k], start, gateMacs, masks)
            + if gates[k].AndGate? then [masks[AndCount(gates[..k])] != (macs[gates[k].x][0] && macs[gates[k].y][0])]
              else []
  {
    LastGate(gates, k + 1);
    assert MacOut(gates[..k + 1], start, gateMacs) == z;
  }

  /** Tables beyond the AND gates processed so far are not looked at. */
  lemma {:induction false} KeysExtend(gates: seq<Gate>, start: seq<Block>, gateKeys: seq<Block>, adjust: seq<bool>,
                                      a: bool, delta: Block)
    requires Fits(gates, |start|) && AndCount(gates) <= |adjust|
    ensures Keys(gates, start, gateKeys, adjust + [a], delta) == Keys(gates, start, gateKeys, adjust, delta)
    ensures KeyTriples(gates, start, gateKeys, adjust + [a], delta) == KeyTriples(gates, start, gateKeys, adjust, delta)
  {
    if gates != [] {
      var n := |gates| - 1;
      KeysExtend(gates[..n], start, gateKeys, adjust, a, delta);
      if gates[n].AndGate? {
        assert LastItem(gates, adjust + [a], false) == LastItem(gates, adjust, false);
      }
      KeyOutExtend(gates, start, gateKeys, adjust, a, delta);
    }
  }

  lemma KeyOutExtend(gates: seq<Gate>, start: seq<Block>, gateKeys: seq<Block>, adjust: seq<bool>, a: bool,
                     delta: Block)
    requires Fits(gates, |start|) && AndCount(gates) <= |adjust| && gates != []
    requires Keys(gates[..|gates| - 1], start, gateKeys, adjust + [a], delta)
        == Keys(gates[..|gates| - 1], start, gateKeys, adjust, delta)
    ensures KeyOut(gates, start, gateKeys, adjust + [a], delta) == KeyOut(gates, start, gateKeys, adjust, delta)
  {
  }

  /** The verifier's next gate, with bit `a` if it is an AND gate. */
  lemma VerifierStep(gates: seq<Gate>, k: nat, start: seq<Block>, gateKeys: seq<Block>, adjust: seq<bool>, a: bool,
                     delta: Block,
                     keys: seq<Block>, z: Block, adjust': seq<bool>)
    requires Fits(gates, |start|) && k < |gates| && AndCount(gates[..k]) == |adjust|
        && (gates[k].AndGate? ==> |adjust| < |gateKeys|)
    requires keys == Keys(gates[..k], start, gateKeys, adjust, delta)
    requires z == KeyValue(gates[k], keys, if gates[k].AndGate? then gateKeys[|adjust|] else ZERO, a, delta)
    requires adjust' == if gates[k].AndGate? then adjust + [a] else adjust
    ensures Keys(gates[..k + 1], start, gateKeys, adjust', delta) == keys[gates[k].z := z]
    ensures KeyTriples(gates[..k + 1], start, gateKeys, adjust', delta)
         == KeyTriples(gates[..k], start, gateKeys, adjust, delta) + if gates[k].AndGate?
           then [GateTriple(gates[k], keys, z)] else []
  {
    LastGate(gates, k + 1);
    KeysExtend(gates[..k], start, gateKeys, adjust, a, delta);
    assert KeyOut(gates[..k + 1], start, gateKeys, adjust', delta) == z;
  }
}
