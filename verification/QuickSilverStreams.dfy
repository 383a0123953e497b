/** The prover's and the verifier's execution objects. */
module QuickSilverStreams {
  import opened Results
  import opened Bits
  import opened Circuits
  import opened ConsistencyCheck
  import opened QuickSilver

  datatype ExecuteError =
    | InputCount(expected: nat, actual: nat)
    | GateMaskCount(expected: nat, actual: nat)
    | GateMacCount(expected: nat, actual: nat)
    | GateKeyCount(expected: nat, actual: nat)
    | Incomplete

  function Extended(blocks: seq<Block>, n: nat): (r: seq<Block>)
    ensures |r| == n
  {
    if n <= |blocks| then blocks[..n] else blocks + seq(n - |blocks|, _ => ZERO)
  }

  /** The prover's fields after the first `pos` gates. */
  ghost predicate ProverAt(c: Circuit, start: seq<Block>, masks: seq<bool>, gateMacs: seq<Block>,
                           macs: seq<Block>, triples: seq<Triple>, adjust: seq<bool>, counter: nat, pos: nat) {
    && c.WellFormed() && |start| == c.feedCount && Fits(c.gates, |start|) && pos <= |c.gates|
    && counter == AndCount(c.gates[..pos]) <= c.andCount == |masks| == |gateMacs|
    && macs == Macs(c.gates[..pos], start, gateMacs)
    && triples == MacTriples(c.gates[..pos], start, gateMacs)
    && adjust == Adjusts(c.gates[..pos], start, gateMacs, masks)
  }

  lemma ProverFits(c: Circuit, start: seq<Block>, masks: seq<bool>, gateMacs: seq<Block>,
                   macs: seq<Block>, triples: seq<Triple>, adjust: seq<bool>, counter: nat, pos: nat)
    requires ProverAt(c, start, masks, gateMacs, macs, triples, adjust, counter, pos) && pos < |c.gates|
    ensures GateFits(c.gates[pos], |macs|)
    ensures c.gates[pos].AndGate? ==> counter < |masks| == |gateMacs|
  {
    NextCount(c.gates, pos);
    assert |macs| == |start| && GateFits(c.gates[pos], |start|);
  }

  /** The prover's fields after one more gate. */
  lemma ProverNext(c: Circuit, start: seq<Block>, masks: seq<bool>, gateMacs: seq<Block>,
                   macs: seq<Block>, triples: seq<Triple>, adjust: seq<bool>, counter: nat, pos: nat,
                   g: Gate, z: Block, ts: seq<Triple>, bits: seq<bool>, n: nat)
    requires ProverAt(c, start, masks, gateMacs, macs, triples, adjust, counter, pos) && pos < |c.gates|
        && g == c.gates[pos]
    requires GateFits(g, |macs|) && (g.AndGate? ==> counter < |masks| == |gateMacs|)
    requires z == MacValue(g, macs, if g.AndGate? then gateMacs[counter] else ZERO)
    requires ts == if g.AndGate? then triples + [Triple(macs[g.x], macs[g.y], z)] else triples
    requires bits == if g.AndGate? then adjust + [masks[counter] != (macs[g.x][0] && macs[g.y][0])] else adjust
    requires n == if g.AndGate? then counter + 1 else counter
    ensures ProverAt(c, start, masks, gateMacs, macs[g.z := z], ts, bits, n, pos + 1)
  {
    NextCount(c.gates, pos);
    ProverStep(c.gates, pos, start, gateMacs, masks, macs, z);
  }

  /** The verifier's fields after the first `pos` gates. */
  ghost predicate VerifierAt(c: Circuit, start: seq<Block>, gateKeys: seq<Block>, delta: Block,
                             keys: seq<Block>, triples: seq<Triple>, adjust: seq<bool>, counter: nat, pos: nat) {
    && c.WellFormed() && |start| == c.feedCount && Fits(c.gates, |start|) && pos <= |c.gates|
    && counter == AndCount(c.gates[..pos]) == |adjust| <= c.andCount == |gateKeys|
    && keys == Keys(c.gates[..pos], start, gateKeys, adjust, delta)
    && triples == KeyTriples(c.gates[..pos], start, gateKeys, adjust, delta)
  }

  lemma VerifierFits(c: Circuit, start: seq<Block>, gateKeys: seq<Block>, delta: Block,
                     keys: seq<Block>, triples: seq<Triple>, adjust: seq<bool>, counter: nat, pos: nat)
    requires VerifierAt(c, start, gateKeys, delta, keys, triples, adjust, counter, pos) && pos < |c.gates|
    ensures GateFits(c.gates[pos], |keys|)
    ensures c.gates[pos].AndGate? ==> counter < |gateKeys|
  {
    NextCount(c.gates, pos);
    assert |keys| == |start| && GateFits(c.gates[pos], |start|);
  }

  /** The verifier's fields after one more gate. */
  lemma VerifierNext(c: Circuit, start: seq<Block>, gateKeys: seq<Block>, delta: Block,
                     keys: seq<Block>, triples: seq<Triple>, adjust: seq<bool>, counter: nat, pos: nat,
                     g: Gate, a: bool, z: Block, ts: seq<Triple>, bits: seq<bool>, n: nat)
    requires VerifierAt(c, start, gateKeys, delta, keys, triples, adjust, counter, pos) && pos < |c.gates|
        && g == c.gates[pos]
    requires GateFits(g, |keys|) && (g.AndGate? ==> counter < |gateKeys|)
    requires z == KeyValue(g, keys, if g.AndGate? then gateKeys[counter] else ZERO, a, delta)
    requires ts == if g.AndGate? then triples + [Triple(keys[g.x], keys[g.y], z)] else triples
    requires bits == if g.AndGate? then adjust + [a] else adjust
    requires n == if g.AndGate? then counter + 1 else counter
    ensures VerifierAt(c, start, gateKeys, delta, keys[g.z := z], ts, bits, n, pos + 1)
  {
    NextCount(c.gates, pos);
    VerifierStep(c.gates, pos, start, gateKeys, adjust, a, delta, keys, z, bits);
  }

  class ProverExecute {
    const circ: Circuit
    const gateMasks: seq<bool>
    const gateMacs: seq<Block>
    const check: Check
    const checkIdx: nat
    var macs: seq<Block>
    var triples: seq<Triple>
    var adjust: seq<bool>
    var counter: nat
    var pos: nat
    /** The wires before the first gate. */
    ghost const start: seq<Block>

    /** Nothing has been processed. */
    ghost predicate Fresh()
      reads this
    {
      && circ.WellFormed() && |macs| == circ.inputs && start == Extended(macs, circ.feedCount)
      && |gateMasks| == |gateMacs| == circ.andCount && Fits(circ.gates, |start|)
      && pos == 0 && counter == 0 && triples == [] && adjust == []
    }

    /** MACs, triples and adjustment bits are those of the gates already taken. */
    ghost predicate InStep()
      reads this
    {
      ProverAt(circ, start, gateMasks, gateMacs, macs, triples, adjust, counter, pos)
    }

    /** Between calls, the free gates after the last AND gate have been taken as well. */
    ghost predicate Valid()
      reads this
    {
      InStep() && (counter == circ.andCount > 0 ==> pos == |circ.gates|)
    }

    constructor (circ: Circuit, macs: seq<Block>, gateMasks: seq<bool>, gateMacs: seq<Block>, check: Check,
                 checkIdx: nat)
      requires circ.WellFormed() && |macs| == circ.inputs && |gateMasks| == |gateMacs| == circ.andCount
      ensures Fresh() && this.circ == circ && this.macs == macs && this.gateMasks == gateMasks
          && this.gateMacs == gateMacs
      ensures this.check == check && this.checkIdx == checkIdx
    {
      this.circ, this.macs, this.gateMasks, this.gateMacs := circ, macs, gateMasks, gateMacs;
      this.check, this.checkIdx := check, checkIdx;
      triples, adjust, counter, pos := [], [], 0, 0;
      start := Extended(macs, circ.feedCount);
      FitsPrefix(circ, |circ.gates|, circ.feedCount);
      assert circ.gates[..|circ.gates|] == circ.gates;
    }

    /** Makes room for every wire. */
    method Iter()
      requires Fresh()
      modifies this
      ensures Valid() && pos == 0
    {
      macs := Extended(macs, circ.feedCount);
      counter := 0;
      assert circ.gates[..0] == [];
    }

    method Take() returns (r: Option<bool>)
      requires InStep() && pos < |circ.gates|
      modifies this
      ensures InStep() && pos == old(pos) + 1
      ensures r.Some? <==> circ.gates[old(pos)].AndGate?
      ensures r.Some? ==> counter == old(counter) + 1 && adjust == old(adjust) + [r.value]
      ensures r.None? ==> counter == old(counter) && adjust == old(adjust)
    {
      var g := circ.gates[pos];
      ProverFits(circ, start, gateMasks, gateMacs, macs, triples, adjust, counter, pos);
      r := None;
      var macZ: Block;
      var ts, bits, n := triples, adjust, counter;
      match g {
        case XorGate(x, y, z) =>
          macZ := Xor(macs[x], macs[y]);
        case AndGate(x, y, z) =>
          var wz := macs[x][0] && macs[y][0];
          macZ := SetLsb(gateMacs[counter], wz);
          var a := gateMasks[counter] != wz;
          ts, bits, n := ts + [Triple(macs[x], macs[y], macZ)], bits + [a], n + 1;
          r := Some(a);
        case InvGate(x, z) =>
          macZ := SetLsb(macs[x], !macs[x][0]);
        case IdGate(x, z) =>
          macZ := macs[x];
      }
      ProverNext(circ, start, gateMasks, gateMacs, macs, triples, adjust, counter, pos, g, macZ, ts, bits, n);
      macs, triples, adjust, counter, pos := macs[g.z := macZ], ts, bits, n, pos + 1;
    }

    /** Takes gates up to and including the next AND gate. */
    method TakeToAnd() returns (r: Option<bool>)
      requires InStep()
      modifies this
      ensures InStep() && old(pos) <= pos
      ensures r.Some? ==> old(pos) < pos && counter == old(counter) + 1 && adjust == old(adjust) + [r.value]
      ensures r.None? ==> pos == |circ.gates| && counter == old(counter) && adjust == old(adjust)
    {
      r := None;
      while pos < |circ.gates| && r.None?
        invariant InStep() && old(pos) <= pos
        invariant r.None? ==> counter == old(counter) && adjust == old(adjust)
        invariant r.Some? ==> old(pos) < pos && counter == old(counter) + 1 && adjust == old(adjust) + [r.value]
        decreases |circ.gates| - pos
      {
        r := Take();
      }
    }

    /** The adjustment bit of the next AND gate; after the last one the free gates are taken as well. */
    method Next() returns (r: Option<bool>)
      requires InStep()
      modifies this
      ensures Valid()
      ensures r.Some? <==> old(counter) < circ.andCount
      ensures r.Some?
          ==> counter == old(counter) + 1 && r.value == Adjusts(circ.gates, start, gateMacs, gateMasks)[old(counter)]
      ensures r.None? ==> counter == old(counter) && pos == |circ.gates|
      ensures adjust == old(adjust) + if r.Some? then [r.value] else []
      decreases |circ.gates| - pos
    {
      r := TakeToAnd();
      assert circ.gates[..|circ.gates|] == circ.gates;
      AdjustsPrefix(circ.gates, pos, start, gateMacs, gateMasks);
      if r.Some? && counter >= circ.andCount {
        var rest := Next();
        assert rest.None?;
      }
    }

    /** Records the triples in the reserved window and returns the output MACs. */
    method Finish() returns (r: Result<seq<Block>, ExecuteError>)
      requires Valid() && checkIdx + circ.andCount <= |check.triples| == |check.adjust|
      modifies check
      ensures r.Err? <==> counter != circ.andCount
      ensures r.Err?
          ==> r.error == Incomplete && check.triples == old(check.triples) && check.adjust == old(check.adjust)
      ensures r.Ok? && pos == |circ.gates|
          ==> r.value == Macs(circ.gates, start, gateMacs)[circ.feedCount - circ.outputs..]
      ensures r.Ok? && pos == |circ.gates|
          ==> check.triples == Overwritten(old(check.triples), checkIdx, MacTriples(circ.gates, start, gateMacs))
      ensures r.Ok? && pos == |circ.gates|
          ==> check.adjust == Overwritten(old(check.adjust), checkIdx, Adjusts(circ.gates, start, gateMacs, gateMasks))
    {
      if counter != circ.andCount {
        return Err(Incomplete);
      }
      check.Write(checkIdx, triples, adjust);
      assert circ.gates[..|circ.gates|] == circ.gates;
      r := Ok(macs[circ.feedCount - circ.outputs..]);
    }
  }

  class VerifierExecute {
    const circ: Circuit
    const delta: Block
    const gateKeys: seq<Block>
    const check: Check
    const checkIdx: nat
    var keys: seq<Block>
    var triples: seq<Triple>
    var adjust: seq<bool>
    var counter: nat
    var pos: nat
    ghost const start: seq<Block>

    ghost predicate Fresh()
      reads this
    {
      && circ.WellFormed() && |keys| == circ.inputs && start == Extended(keys, circ.feedCount)
      && |gateKeys| == circ.andCount && Fits(circ.gates, |start|)
      && pos == 0 && counter == 0 && triples == [] && adjust == []
    }

    ghost predicate InStep()
      reads this
    {
      VerifierAt(circ, start, gateKeys, delta, keys, triples, adjust, counter, pos)
    }

    /** Between calls the verifier waits for a bit or has processed the whole circuit. */
    ghost predicate Valid()
      reads this
    {
      InStep() && (counter == circ.andCount ==> pos == |circ.gates|)
    }

    constructor (circ: Circuit, delta: Block, keys: seq<Block>, gateKeys: seq<Block>, check: Check, checkIdx: nat)
      requires circ.WellFormed() && |keys| == circ.inputs && |gateKeys| == circ.andCount
      ensures Fresh() && this.circ == circ && this.delta == delta && this.keys == keys && this.gateKeys == gateKeys
      ensures this.check == check && this.checkIdx == checkIdx
    {
      this.circ, this.delta, this.keys, this.gateKeys := circ, delta, keys, gateKeys;
      this.check, this.checkIdx := check, checkIdx;
      triples, adjust, counter, pos := [], [], 0, 0;
      start := Extended(keys, circ.feedCount);
      FitsPrefix(circ, |circ.gates|, circ.feedCount);
      assert circ.gates[..|circ.gates|] == circ.gates;
    }

    /** Makes room for every wire, and processes a circuit without AND gates at once. */
    method Consumer()
      requires Fresh()
      modifies this
      ensures Valid() && adjust == []
    {
      keys := Extended(keys, circ.feedCount);
      counter := 0;
      assert circ.gates[..0] == [];
      if circ.andCount == 0 {
        Next(false);
      } else {
        assert circ.gates[..|circ.gates|] == circ.gates;
      }
    }

    method Take(a: bool) returns (and: bool)
      requires InStep() && pos < |circ.gates|
      modifies this
      ensures InStep() && pos == old(pos) + 1
      ensures and == circ.gates[old(pos)].AndGate?
      ensures adjust == if and then old(adjust) + [a] else old(adjust)
    {
      var g := circ.gates[pos];
      VerifierFits(circ, start, gateKeys, delta, keys, triples, adjust, counter, pos);
      and := false;
      var keyZ: Block;
      var ts, bits, n := triples, adjust, counter;
      match g {
        case XorGate(x, y, z) =>
          keyZ := Xor(keys[x], keys[y]);
        case AndGate(x, y, z) =>
          keyZ := AdjustKey(gateKeys[counter], a, delta);
          ts, bits, n := ts + [Triple(keys[x], keys[y], keyZ)], bits + [a], n + 1;
          and := true;
        case InvGate(x, z) =>
          keyZ := AdjustKey(keys[x], true, delta);
        case IdGate(x, z) =>
          keyZ := keys[x];
      }
      VerifierNext(circ, start, gateKeys, delta, keys, triples, adjust, counter, pos, g, a, keyZ, ts, bits, n);
      keys, triples, adjust, counter, pos := keys[g.z := keyZ], ts, bits, n, pos + 1;
    }

    /** Uses the bit for the next AND gate; surplus bits are ignored. */
    method Next(a: bool)
      requires InStep()
      modifies this
      ensures Valid() && adjust == if old(counter) < circ.andCount then old(adjust) + [a] else old(adjust)
    {
      assert circ.gates[..|circ.gates|] == circ.gates;
      while pos < |circ.gates|
        invariant InStep()
        invariant adjust == old(adjust) || (old(counter) < circ.andCount == counter && adjust == old(adjust) + [a])
      {
        var and := Take(a);
        if and && counter < circ.andCount {
          return;
        }
      }
    }

    method Finish() returns (r: Result<seq<Block>, ExecuteError>)
      requires Valid() && checkIdx + circ.andCount <= |check.triples| == |check.adjust|
      modifies check
      ensures r.Err? <==> counter < circ.andCount
      ensures r.Err?
          ==> r.error == Incomplete && check.triples == old(check.triples) && check.adjust == old(check.adjust)
      ensures r.Ok? ==> r.value == Keys(circ.gates, start, gateKeys, adjust, delta)[circ.feedCount - circ.outputs..]
      ensures r.Ok?
          ==> check.triples == Overwritten(old(check.triples), checkIdx,
                                           KeyTriples(circ.gates, start, gateKeys, adjust, delta))
      ensures r.Ok? ==> check.adjust == Overwritten(old(check.adjust), checkIdx, adjust)
    {
      if counter < circ.andCount {
        return Err(Incomplete);
      }
      check.Write(checkIdx, triples, adjust);
      assert circ.gates[..|circ.gates|] == circ.gates;
      r := Ok(keys[circ.feedCount - circ.outputs..]);
    }
  }

  class Prover {
    const check: Check

    constructor ()
      ensures fresh(check) && check.triples == [] && check.adjust == []
    {
      check := new Check();
    }

    method Execute(circ: Circuit, inputMacs: seq<Block>, gateMasks: seq<bool>, gateMacs: seq<Block>)
      returns (r: Result<ProverExecute, ExecuteError>)
      requires circ.WellFormed()
      modifies check
      ensures r.Ok? <==> |inputMacs| == circ.inputs && |gateMasks| == |gateMacs| == circ.andCount
      ensures |inputMacs| != circ.inputs ==> r == Err(InputCount(circ.inputs, |inputMacs|))
      ensures |inputMacs| == circ.inputs && |gateMasks| != circ.andCount
          ==> r == Err(GateMaskCount(circ.andCount, |gateMasks|))
      ensures |inputMacs| == circ.inputs && |gateMasks| == circ.andCount != |gateMacs|
          ==> r == Err(GateMacCount(circ.andCount, |gateMacs|))
      ensures r.Err? ==> check.triples == old(check.triples) && check.adjust == old(check.adjust)
      ensures r.Ok? ==> fresh(r.value) && r.value.Fresh() && r.value.circ == circ && r.value.macs == inputMacs
      ensures r.Ok?
          ==> r.value.gateMasks == gateMasks && r.value.gateMacs == gateMacs && r.value.check == check
              && r.value.checkIdx == old(|check.triples|)
      ensures r.Ok? ==> check.triples == old(check.triples) + seq(circ.andCount, _ => DefaultTriple())
      ensures r.Ok? ==> check.adjust == Resized(old(check.adjust), |check.triples|)
    {
      if |inputMacs| != circ.inputs {
        return Err(InputCount(circ.inputs, |inputMacs|));
      } else if |gateMasks| != circ.andCount {
        return Err(GateMaskCount(circ.andCount, |gateMasks|));
      } else if |gateMacs| != circ.andCount {
        return Err(GateMacCount(circ.andCount, |gateMacs|));
      }
      var idx := check.Reserve(circ.andCount);
      var e := new ProverExecute(circ, inputMacs, gateMasks, gateMacs, check, idx);
      r := Ok(e);
    }
  }

  class Verifier {
    const delta: Block
    const check: Check

    constructor (delta: Block)
      ensures this.delta == delta && fresh(check) && check.triples == [] && check.adjust == []
    {
      this.delta := delta;
      check := new Check();
    }

    method Execute(circ: Circuit, inputKeys: seq<Block>, gateKeys: seq<Block>)
      returns (r: Result<VerifierExecute, ExecuteError>)
      requires circ.WellFormed()
      modifies check
      ensures r.Ok? <==> |inputKeys| == circ.inputs && |gateKeys| == circ.andCount
      ensures r.Err? && |inputKeys| != circ.inputs ==> r.error == InputCount(circ.inputs, |inputKeys|)
      ensures r.Err? && |inputKeys| == circ.inputs ==> r.error == GateKeyCount(circ.andCount, |gateKeys|)
      ensures r.Err? ==> check.triples == old(check.triples) && check.adjust == old(check.adjust)
      ensures r.Ok? ==> fresh(r.value) && r.value.Fresh() && r.value.circ == circ && r.value.keys == inputKeys
      ensures r.Ok?
          ==> r.value.gateKeys == gateKeys && r.value.delta == delta && r.value.check == check
              && r.value.checkIdx == old(|check.triples|)
      ensures r.Ok? ==> check.triples == old(check.triples) + seq(circ.andCount, _ => DefaultTriple())
      ensures r.Ok? ==> check.adjust == Resized(old(check.adjust), |check.triples|)
    {
      if |inputKeys| != circ.inputs {
        return Err(InputCount(circ.inputs, |inputKeys|));
      } else if |gateKeys| != circ.andCount {
        return Err(GateKeyCount(circ.andCount, |gateKeys|));
      }
      var idx := check.Reserve(circ.andCount);
      var e := new VerifierExecute(circ, delta, inputKeys, gateKeys, check, idx);
      r := Ok(e);
    }
  }

  /** The verifier has used exactly the bits the prover produced. */
  ghost predicate InSync(p: ProverExecute, v: VerifierExecute)
    reads p, v
  {
    p.Valid() && v.Valid() && p.circ == v.circ && v.adjust == p.adjust
  }

  method PassBit(p: ProverExecute, v: VerifierExecute) returns (more: bool)
    requires InSync(p, v)
    modifies p, v
    ensures InSync(p, v)
    ensures more <==> old(p.counter) < p.circ.andCount
    ensures more ==> p.counter == old(p.counter) + 1
    ensures !more ==> p.counter == p.circ.andCount && p.pos == |p.circ.gates|
  {
    var bit := p.Next();
    more := bit.Some?;
    if more {
      v.Next(bit.value);
    }
  }

  /** Streams every adjustment bit from the prover to the verifier. */
  method PassBits(p: ProverExecute, v: VerifierExecute)
    requires p.Fresh() && v.Fresh() && p.circ == v.circ
    modifies p, v
    ensures p.Valid() && p.pos == |p.circ.gates| && v.Valid() && v.counter == p.counter == v.circ.andCount
    ensures v.adjust == Adjusts(p.circ.gates, p.start, p.gateMacs, p.gateMasks)
  {
    p.Iter();
    v.Consumer();
    assert p.circ.gates[..0] == [];
    var more := true;
    while more
      invariant InSync(p, v) && (!more ==> p.counter == p.circ.andCount && p.pos == |p.circ.gates|)
      decreases p.circ.andCount - p.counter, more
    {
      more := PassBit(p, v);
    }
    assert p.circ.gates[..|p.circ.gates|] == p.circ.gates;
  }

  /** The output wires carry `w`'s output bits, authenticated. */
  ghost predicate OutputsAuth(c: Circuit, macs: seq<Block>, keys: seq<Block>, w: nat -> bool, delta: Block)
    requires c.outputs <= c.feedCount
  {
    |macs| == |keys| == c.outputs && forall j | 0 <= j < c.outputs :: Auth(macs[j], keys[j], c.OutputsOf(w)[j], delta)
  }

  /** `w` solves the circuit on the authenticated inputs. */
  ghost predicate AuthInputs(c: Circuit, w: nat -> bool, macs: seq<Block>, keys: seq<Block>, delta: Block)
    requires |macs| == |keys| == c.inputs
  {
    && (forall k | 0 <= k < |c.gates| :: Satisfies(c.gates[k], w))
    && (forall i: nat | i < c.inputs :: Auth(macs[i], keys[i], w(i), delta))
  }

  lemma RunResults(c: Circuit, macs0: seq<Block>, keys0: seq<Block>, macs: seq<Block>, keys: seq<Block>,
                   w: nat -> bool, delta: Block,
                   gateMacs: seq<Block>, gateKeys: seq<Block>, masks: seq<bool>, adjust: seq<bool>)
    requires c.WellFormed() && |macs| == |keys| == c.inputs && delta[0] && AuthInputs(c, w, macs, keys, delta)
    requires macs0 == Extended(macs, c.feedCount) && keys0 == Extended(keys, c.feedCount)
    requires OtsCorrelated(c.andCount, gateMacs, gateKeys, masks, delta)
    requires Fits(c.gates, |macs0|) && Fits(c.gates, |keys0|) && adjust == Adjusts(c.gates, macs0, gateMacs, masks)
    ensures OutputsAuth(c, Macs(c.gates, macs0, gateMacs)[c.feedCount - c.outputs..],
                        Keys(c.gates, keys0, gateKeys, adjust, delta)[c.feedCount - c.outputs..], w, delta)
    ensures GoodTriples(MacTriples(c.gates, macs0, gateMacs), KeyTriples(c.gates, keys0, gateKeys, adjust, delta),
                        delta)
  {
    ExtendedPrefix(macs, c.feedCount);
    ExtendedPrefix(keys, c.feedCount);
    ExecutionCorrect(c, macs0, keys0, w, delta, gateMacs, gateKeys, masks, adjust);
    AuthRange(c, Macs(c.gates, macs0, gateMacs), Keys(c.gates, keys0, gateKeys, adjust, delta), w, delta);
  }

  lemma AllRunResults(c: Circuit, macs0: seq<Block>, keys0: seq<Block>, macs: seq<Block>, keys: seq<Block>,
                      delta: Block,
                      gateMacs: seq<Block>, gateKeys: seq<Block>, masks: seq<bool>, adjust: seq<bool>)
    requires c.WellFormed() && |macs| == |keys| == c.inputs && delta[0]
    requires macs0 == Extended(macs, c.feedCount) && keys0 == Extended(keys, c.feedCount)
    requires OtsCorrelated(c.andCount, gateMacs, gateKeys, masks, delta)
    requires Fits(c.gates, |macs0|) && Fits(c.gates, |keys0|) && adjust == Adjusts(c.gates, macs0, gateMacs, masks)
    ensures forall w: nat -> bool | AuthInputs(c, w, macs, keys, delta) ::
      && OutputsAuth(c, Macs(c.gates, macs0, gateMacs)[c.feedCount - c.outputs..],
                     Keys(c.gates, keys0, gateKeys, adjust, delta)[c.feedCount - c.outputs..], w, delta)
      && GoodTriples(MacTriples(c.gates, macs0, gateMacs), KeyTriples(c.gates, keys0, gateKeys, adjust, delta), delta)
  {
    forall w: nat -> bool | AuthInputs(c, w, macs, keys, delta)
      ensures OutputsAuth(c, Macs(c.gates, macs0, gateMacs)[c.feedCount - c.outputs..],
                          Keys(c.gates, keys0, gateKeys, adjust, delta)[c.feedCount - c.outputs..], w, delta)
      ensures GoodTriples(MacTriples(c.gates, macs0, gateMacs), KeyTriples(c.gates, keys0, gateKeys, adjust, delta),
                          delta)
    {
      RunResults(c, macs0, keys0, macs, keys, w, delta, gateMacs, gateKeys, masks, adjust);
    }
  }

  lemma ExtendedPrefix(blocks: seq<Block>, n: nat)
    requires |blocks| <= n
    ensures forall i: nat | i < |blocks| :: Extended(blocks, n)[i] == blocks[i]
  {
  }

  lemma AuthRange(c: Circuit, macs: seq<Block>, keys: seq<Block>, w: nat -> bool, delta: Block)
    requires c.WellFormed() && |macs| == |keys| == c.feedCount && WiresAuth(c, |c.gates|, macs, keys, w, delta)
    ensures OutputsAuth(c, macs[c.feedCount - c.outputs..], keys[c.feedCount - c.outputs..], w, delta)
  {
    forall j | 0 <= j < c.outputs
      ensures Auth(macs[c.feedCount - c.outputs..][j], keys[c.feedCount - c.outputs..][j], c.OutputsOf(w)[j], delta)
    {
      assert c.Defined(c.feedCount - c.outputs + j, |c.gates|);
    }
  }

  /** A whole execution by both parties: the outputs are authenticated evaluations, and the recorded triples are good.
      */
  method ExecuteBoth(p: ProverExecute, v: VerifierExecute)
    returns (macs: seq<Block>, keys: seq<Block>, ghost part: (seq<Triple>, seq<Triple>, seq<bool>))
    requires p.Fresh() && v.Fresh() && p.circ == v.circ && v.delta[0] && p.check != v.check
    requires OtsCorrelated(p.circ.andCount, p.gateMacs, v.gateKeys, p.gateMasks, v.delta)
    requires p.checkIdx + p.circ.andCount <= |p.check.triples| == |p.check.adjust|
    requires v.checkIdx + v.circ.andCount <= |v.check.triples| == |v.check.adjust|
    modifies p, v, p.check, v.check
    ensures forall w: nat -> bool | AuthInputs(p.circ, w, old(p.macs), old(v.keys), v.delta) ::
      OutputsAuth(p.circ, macs, keys, w, v.delta) && GoodTriples(part.0, part.1, v.delta)
    ensures part.2 == Adjusts(p.circ.gates, p.start, p.gateMacs, p.gateMasks)
        && part.0 == MacTriples(p.circ.gates, p.start, p.gateMacs)
    ensures part.1 == KeyTriples(v.circ.gates, v.start, v.gateKeys, part.2, v.delta)
    ensures |part.0| == |part.1| == |part.2| == p.circ.andCount
    ensures p.check.triples == Overwritten(old(p.check.triples), p.checkIdx, part.0)
        && p.check.adjust == Overwritten(old(p.check.adjust), p.checkIdx, part.2)
    ensures v.check.triples == Overwritten(old(v.check.triples), v.checkIdx, part.1)
        && v.check.adjust == Overwritten(old(v.check.adjust), v.checkIdx, part.2)
  {
    ghost var macs0, keys0 := p.macs, v.keys;
    PassBits(p, v);
    assert p.circ.gates[..|p.circ.gates|] == p.circ.gates;
    var m := p.Finish();
    var k := v.Finish();
    macs, keys := m.value, k.value;
    ghost var gates := p.circ.gates;
    part := (MacTriples(gates, p.start, p.gateMacs), KeyTriples(gates, v.start, v.gateKeys, v.adjust, v.delta),
             v.adjust);
    AllRunResults(p.circ, p.start, v.start, macs0, keys0, v.delta, p.gateMacs, v.gateKeys, p.gateMasks, v.adjust);
  }
}
