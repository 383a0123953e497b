/** The garbler's and the evaluator's streaming objects: one gate at a time, or in zero-padded batches. */
module GarbleStreams {
  import opened Results
  import opened Bits
  import opened Circuits
  import opened Garbling

  datatype StreamError = InputLength(expected: nat, actual: nat) | NotFinished

  /** Writes the zero label of the gate's output wire. */
  method GarbleGate(g: Gate, labels: array<Block>, delta: Block, garble: GarbleRule, gid: nat)
    requires GateFits(g, labels.Length)
    modifies labels
    ensures labels[..] == old(labels[..])[g.z := GarbledValue(g, old(labels[..]), delta, garble, gid)]
  {
    match g
    case XorGate(x, y, z) => labels[z] := Xor(labels[x], labels[y]);
    case AndGate(x, y, z) => labels[z] := garble(labels[x], labels[y], gid).0;
    case InvGate(x, z) => labels[z] := Xor(labels[x], delta);
    case IdGate(x, z) => labels[z] := labels[x];
  }

  /** Writes the active label of the gate's output wire. */
  method EvaluateGate(g: Gate, labels: array<Block>, rows: EncryptedGate, evaluate: EvaluateRule, gid: nat)
    requires GateFits(g, labels.Length)
    modifies labels
    ensures labels[..] == old(labels[..])[g.z := EvaluatedValue(g, old(labels[..]), rows, evaluate, gid)]
  {
    match g
    case XorGate(x, y, z) => labels[z] := Xor(labels[x], labels[y]);
    case AndGate(x, y, z) => labels[z] := evaluate(labels[x], labels[y], rows, gid);
    case InvGate(x, z) => labels[z] := labels[x];
    case IdGate(x, z) => labels[z] := labels[x];
  }

  /** The garbler's fields after the first `pos` gates. */
  ghost predicate GarbledTo(gates: seq<Gate>, start: seq<Block>, delta: Block, garble: GarbleRule, andCount: nat,
                            labels: seq<Block>, pos: nat, counter: nat, gid: nat) {
    && Fits(gates, |start|) && |labels| == |start| && pos <= |gates| && counter <= andCount == AndCount(gates)
    && counter == AndCount(gates[..pos]) && gid == GateId(gates[..pos])
    && labels == ZeroLabels(gates[..pos], start, delta, garble)
  }

  /** The next gate fits the buffer, and if it is an AND gate its table is the next one. */
  lemma GarbledTable(gates: seq<Gate>, start: seq<Block>, delta: Block, garble: GarbleRule, andCount: nat,
                     labels: seq<Block>, pos: nat, counter: nat, gid: nat)
    requires GarbledTo(gates, start, delta, garble, andCount, labels, pos, counter, gid) && pos < |gates|
    ensures GateFits(gates[pos], |labels|)
    ensures gates[pos].AndGate? ==>
      && counter < andCount == |Tables(gates, start, delta, garble)|
      && garble(labels[gates[pos].x], labels[gates[pos].y], gid).1 == Tables(gates, start, delta, garble)[counter]
  {
    GarbleStep(gates, pos, start, delta, garble, labels, gid);
    NextCount(gates, pos);
  }

  /** The garbler's fields after one more gate. */
  lemma GarbledNext(gates: seq<Gate>, start: seq<Block>, delta: Block, garble: GarbleRule, andCount: nat,
                    labels: seq<Block>, pos: nat, counter: nat, gid: nat, g: Gate, labels': seq<Block>, counter': nat,
                      gid': nat)
    requires GarbledTo(gates, start, delta, garble, andCount, labels, pos, counter, gid) && pos < |gates|
        && g == gates[pos]
    requires GateFits(g, |labels|) && labels' == labels[g.z := GarbledValue(g, labels, delta, garble, gid)]
    requires counter' == (if g.AndGate? then counter + 1 else counter) && gid' == if g.AndGate? then gid + 2 else gid
    ensures GarbledTo(gates, start, delta, garble, andCount, labels', pos + 1, counter', gid')
  {
    GarbleStep(gates, pos, start, delta, garble, labels, gid);
    NextCount(gates, pos);
  }

  /** The evaluator's fields after the first `pos` gates. */
  ghost predicate EvaluatedTo(gates: seq<Gate>, start: seq<Block>, evaluate: EvaluateRule, andCount: nat,
                              labels: seq<Block>, used: seq<EncryptedGate>, pos: nat, counter: nat, gid: nat) {
    && Fits(gates, |start|) && |labels| == |start| && pos <= |gates| && counter <= andCount == AndCount(gates)
    && counter == AndCount(gates[..pos]) == |used| && gid == GateId(gates[..pos])
    && labels == ActiveLabels(gates[..pos], start, used, evaluate)
  }

  lemma EvaluatedFits(gates: seq<Gate>, start: seq<Block>, evaluate: EvaluateRule, andCount: nat,
                      labels: seq<Block>, used: seq<EncryptedGate>, pos: nat, counter: nat, gid: nat)
    requires EvaluatedTo(gates, start, evaluate, andCount, labels, used, pos, counter, gid) && pos < |gates|
    ensures GateFits(gates[pos], |labels|)
  {
  }

  /** The evaluator's fields after one more gate. */
  lemma EvaluatedNext(gates: seq<Gate>, start: seq<Block>, evaluate: EvaluateRule, andCount: nat,
                      labels: seq<Block>, used: seq<EncryptedGate>, pos: nat, counter: nat, gid: nat,
                      g: Gate, rows: EncryptedGate, labels': seq<Block>, used': seq<EncryptedGate>, counter': nat,
                        gid': nat)
    requires EvaluatedTo(gates, start, evaluate, andCount, labels, used, pos, counter, gid) && pos < |gates|
        && g == gates[pos]
    requires GateFits(g, |labels|) && labels' == labels[g.z := EvaluatedValue(g, labels, rows, evaluate, gid)]
    requires used' == if g.AndGate? then used + [rows] else used
    requires counter' == (if g.AndGate? then counter + 1 else counter) && gid' == if g.AndGate? then gid + 2 else gid
    ensures EvaluatedTo(gates, start, evaluate, andCount, labels', used', pos + 1, counter', gid')
  {
    NextCount(gates, pos);
    EvaluateStep(gates, pos, start, used, evaluate, labels, gid, rows, labels', used');
  }

  class EncryptedGateIter {
    /** AND gates are garbled under the fixed cipher and the offset. */
    const garble: GarbleRule
    const delta: Block
    const labels: array<Block>
    const gates: seq<Gate>
    const andCount: nat
    const outputs: nat
    const feedCount: nat
    var pos: nat
    var gid: nat
    var counter: nat
    var complete: bool
    /** The buffer when the iterator was made. */
    ghost const start: seq<Block>

    constructor (c: Circuit, delta: Block, labels: array<Block>, garble: GarbleRule)
      requires Fits(c.gates, labels.Length) && c.andCount == AndCount(c.gates)
          && c.outputs <= c.feedCount <= labels.Length
      ensures Valid() && counter == 0 && this.labels == labels && start == labels[..]
      ensures this.delta == delta && gates == c.gates && andCount == c.andCount && this.garble == garble
      ensures outputs == c.outputs && feedCount == c.feedCount
    {
      this.garble, this.delta, this.labels, this.gates := garble, delta, labels, c.gates;
      andCount, outputs, feedCount := c.andCount, c.outputs, c.feedCount;
      pos, gid, counter, complete := 0, 1, 0, false;
      start := labels[..];
      assert c.gates[..0] == [];
    }

    /** The labels are those after the gates already taken, and the gate id follows the AND gates among them. */
    ghost predicate InStep()
      reads this, labels
    {
      && outputs <= feedCount <= labels.Length
      && GarbledTo(gates, start, delta, garble, andCount, labels[..], pos, counter, gid)
    }

    /** Between calls, free gates after the last AND gate have been taken as well. */
    ghost predicate Valid()
      reads this, labels
    {
      && InStep()
      && (complete ==> pos == |gates|) && (counter == andCount > 0 ==> pos == |gates|)
    }

    predicate HasGates()
      reads this
    {
      counter != andCount
    }

    /** Takes one gate; reports the table if it is an AND gate. */
    method Take() returns (r: Option<EncryptedGate>)
      requires InStep() && pos < |gates|
      modifies this, labels
      ensures InStep() && pos == old(pos) + 1 && complete == old(complete)
      ensures r.Some? <==> gates[old(pos)].AndGate?
      ensures r.Some?
          ==> counter == old(counter) + 1 && counter <= andCount
              && r.value == Tables(gates, start, delta, garble)[old(counter)]
      ensures r.None? ==> counter == old(counter)
    {
      var g := gates[pos];
      ghost var before := labels[..];
      GarbledTable(gates, start, delta, garble, andCount, before, pos, counter, gid);
      r := if g.AndGate? then Some(garble(labels[g.x], labels[g.y], gid).1) else None;
      GarbleGate(g, labels, delta, garble, gid);
      var gid', counter' := if g.AndGate? then gid + 2 else gid, if g.AndGate? then counter + 1 else counter;
      GarbledNext(gates, start, delta, garble, andCount, before, pos, counter, gid, g, labels[..], counter', gid');
      gid, counter, pos := gid', counter', pos + 1;
    }

    /** Takes gates up to and including the next AND gate. */
    method TakeToAnd() returns (r: Option<EncryptedGate>)
      requires InStep()
      modifies this, labels
      ensures InStep() && old(pos) <= pos && complete == old(complete)
      ensures r.Some?
          ==> old(pos) < pos && counter == old(counter) + 1 <= andCount
              && r.value == Tables(gates, start, delta, garble)[old(counter)]
      ensures r.None? ==> pos == |gates| && counter == old(counter)
    {
      r := None;
      while pos < |gates| && r.None?
        invariant InStep() && old(pos) <= pos && complete == old(complete)
        invariant r.None? ==> counter == old(counter)
        invariant r.Some?
            ==> old(pos) < pos && counter == old(counter) + 1 <= andCount
                && r.value == Tables(gates, start, delta, garble)[old(counter)]
        decreases |gates| - pos
      {
        r := Take();
      }
    }

    /** The next encrypted gate; the one with the last AND gate also takes the remaining free gates. */
    method Next() returns (r: Option<EncryptedGate>)
      requires InStep() && (complete ==> pos == |gates|)
      modifies this, labels
      ensures Valid()
      ensures r.Some? <==> old(counter) < andCount
      ensures r.Some? ==> counter == old(counter) + 1 && r.value == Tables(gates, start, delta, garble)[old(counter)]
      ensures r.None? ==> counter == old(counter) && pos == |gates|
      decreases |gates| - pos
    {
      r := TakeToAnd();
      assert gates[..|gates|] == gates;
      if r.Some? && !HasGates() {
        var rest := Next();
        assert rest.None?;
        complete := true;
      }
    }

    /** The output labels, once every encrypted gate was produced. */
    method Finish() returns (r: Result<seq<Block>, StreamError>)
      requires Valid()
      modifies this, labels
      ensures r.Err? <==> old(counter) < andCount
      ensures r.Err? ==> r.error == NotFinished
      ensures r.Ok? ==> r.value == ZeroLabels(gates, start, delta, garble)[feedCount - outputs..feedCount]
    {
      assert gates[..|gates|] == gates;
      if HasGates() {
        return Err(NotFinished);
      }
      if !complete {
        var rest := Next();
        assert rest.None?;
      }
      r := Ok(labels[feedCount - outputs..feedCount]);
      assert labels[feedCount - outputs..feedCount] == labels[..][feedCount - outputs..feedCount];
    }
  }

  /** `batch` is the part of `tables` from `from` on, padded with default gates to its length. */
  predicate Padded(batch: seq<EncryptedGate>, tables: seq<EncryptedGate>, from: nat) {
    forall i | 0 <= i < |batch| :: batch[i] == if from + i < |tables| then tables[from + i] else DefaultGate()
  }

  function Min(a: nat, b: nat): nat {
    if a <= b then a else b
  }

  class EncryptedGateBatchIter {
    const inner: EncryptedGateIter
    const size: nat

    constructor (inner: EncryptedGateIter, size: nat)
      ensures this.inner == inner && this.size == size
    {
      this.inner, this.size := inner, size;
    }

    /** The next batch, zero-padded when the AND gates run out. */
    method Next() returns (r: Option<seq<EncryptedGate>>)
      requires inner.Valid() && size >= 1
      modifies inner, inner.labels
      ensures inner.Valid()
      ensures r.None? <==> old(inner.counter) == inner.andCount
      ensures r.None? ==> inner.counter == old(inner.counter)
      ensures r.Some? ==> |r.value| == size && inner.counter == Min(old(inner.counter) + size, inner.andCount)
      ensures r.Some?
          ==> Padded(r.value, Tables(inner.gates, inner.start, inner.delta, inner.garble), old(inner.counter))
    {
      if !inner.HasGates() {
        return None;
      }
      var batch := seq(size, _ => DefaultGate());
      var i := 0;
      ghost var tables := Tables(inner.gates, inner.start, inner.delta, inner.garble);
      ghost var done := inner.counter;
      while i < size
        invariant inner.Valid() && i <= size && |batch| == size && inner.counter == done + i <= inner.andCount
        invariant forall j | 0 <= j < size :: batch[j] == if j < i then tables[done + j] else DefaultGate()
      {
        var gate := inner.Next();
        if gate.None? {
          break;
        }
        batch := batch[i := gate.value];
        i := i + 1;
      }
      r := Some(batch);
    }
  }

  class EncryptedGateConsumer {
    /** AND gates are evaluated under the fixed cipher. */
    const evaluate: EvaluateRule
    const labels: array<Block>
    const gates: seq<Gate>
    const andCount: nat
    const outputs: nat
    const feedCount: nat
    var pos: nat
    var gid: nat
    var counter: nat
    var complete: bool
    /** The buffer when the consumer was made, and the encrypted gates used since. */
    ghost const start: seq<Block>
    ghost var used: seq<EncryptedGate>

    constructor (c: Circuit, labels: array<Block>, evaluate: EvaluateRule)
      requires Fits(c.gates, labels.Length) && c.andCount == AndCount(c.gates)
          && c.outputs <= c.feedCount <= labels.Length
      ensures Valid() && used == [] && this.labels == labels && start == labels[..]
      ensures gates == c.gates && andCount == c.andCount && this.evaluate == evaluate
      ensures outputs == c.outputs && feedCount == c.feedCount
    {
      this.evaluate, this.labels, this.gates := evaluate, labels, c.gates;
      andCount, outputs, feedCount := c.andCount, c.outputs, c.feedCount;
      pos, gid, counter, complete := 0, 1, 0, false;
      start, used := labels[..], [];
      assert c.gates[..0] == [];
    }

    ghost predicate InStep()
      reads this, labels
    {
      && outputs <= feedCount <= labels.Length
      && EvaluatedTo(gates, start, evaluate, andCount, labels[..], used, pos, counter, gid)
    }

    ghost predicate Valid()
      reads this, labels
    {
      && InStep()
      && (complete ==> pos == |gates|) && (counter == andCount > 0 ==> pos == |gates|)
    }

    predicate WantsGates()
      reads this
    {
      counter != andCount
    }

    /** Evaluates one gate, with the given rows if it is an AND gate. */
    method Take(rows: EncryptedGate) returns (and: bool)
      requires InStep() && pos < |gates|
      modifies this, labels
      ensures InStep() && pos == old(pos) + 1 && complete == old(complete)
      ensures and == gates[old(pos)].AndGate?
      ensures used == if and then old(used) + [rows] else old(used)
    {
      var g := gates[pos];
      ghost var before := labels[..];
      EvaluatedFits(gates, start, evaluate, andCount, before, used, pos, counter, gid);
      EvaluateGate(g, labels, rows, evaluate, gid);
      and := g.AndGate?;
      var gid', counter' := if and then gid + 2 else gid, if and then counter + 1 else counter;
      ghost var used' := if and then used + [rows] else used;
      EvaluatedNext(gates, start, evaluate, andCount, before, used, pos, counter, gid, g, rows, labels[..], used',
                    counter', gid');
      gid, counter, used, pos := gid', counter', used', pos + 1;
    }

    /** Uses the encrypted gate for the next AND gate; surplus gates are ignored. */
    method Next(rows: EncryptedGate)
      requires Valid()
      modifies this, labels
      ensures Valid() && used == if old(counter) < andCount then old(used) + [rows] else old(used)
      ensures counter == andCount ==> pos == |gates|
    {
      assert gates[..|gates|] == gates;
      while pos < |gates|
        invariant InStep() && (complete ==> pos == |gates|)
        invariant used == old(used) || (old(counter) < andCount == counter && used == old(used) + [rows])
      {
        var and := Take(rows);
        if and && WantsGates() {
          return;
        }
      }
      complete := true;
    }

    method Finish() returns (r: Result<seq<Block>, StreamError>)
      requires Valid()
      modifies this, labels
      ensures r.Err? <==> old(counter) < andCount
      ensures r.Err? ==> r.error == NotFinished
      ensures r.Ok? ==> r.value == ActiveLabels(gates, start, old(used), evaluate)[feedCount - outputs..feedCount]
    {
      assert gates[..|gates|] == gates;
      if WantsGates() {
        return Err(NotFinished);
      }
      if !complete {
        Next(DefaultGate());
      }
      r := Ok(labels[feedCount - outputs..feedCount]);
      assert labels[feedCount - outputs..feedCount] == labels[..][feedCount - outputs..feedCount];
    }
  }

  class EncryptedGateBatchConsumer {
    const inner: EncryptedGateConsumer

    constructor (inner: EncryptedGateConsumer)
      ensures this.inner == inner
    {
      this.inner := inner;
    }

    /** Uses the gates of the batch until the circuit wants no more; the padding is skipped. */
    method Next(batch: seq<EncryptedGate>)
      requires inner.Valid()
      modifies inner, inner.labels
      ensures inner.Valid()
      ensures inner.counter == Min(old(inner.counter) + |batch|, inner.andCount)
      ensures inner.used == old(inner.used) + batch[..Min(|batch|, inner.andCount - old(inner.counter))]
    {
      for i := 0 to |batch|
        invariant inner.Valid() && (i > 0 ==> inner.WantsGates()) && inner.counter == old(inner.counter) + i
        invariant inner.used == old(inner.used) + batch[..i]
      {
        assert batch[..i + 1] == batch[..i] + [batch[i]];
        inner.Next(batch[i]);
        if !inner.WantsGates() {
          return;
        }
      }
    }
  }

  // The parties, with a label buffer that is reused from circuit to circuit.

  /** The buffer holds the input labels, whatever else it holds. */
  predicate Holds(buffer: seq<Block>, c: Circuit, inputs: seq<Block>) {
    |inputs| == c.inputs <= c.feedCount <= |buffer| && buffer[..c.inputs] == inputs
  }

  method LoadInputs(reused: array<Block>, c: Circuit, inputs: seq<Block>) returns (buffer: array<Block>)
    requires |inputs| == c.inputs <= c.feedCount
    modifies reused
    ensures buffer == reused || fresh(buffer)
    ensures Holds(buffer[..], c, inputs)
  {
    buffer := reused;
    if c.feedCount > buffer.Length {
      buffer := new Block[c.feedCount](i reads reused => if 0 <= i < reused.Length then reused[i] else ZERO);
    }
    for i := 0 to |inputs|
      invariant forall j | 0 <= j < i :: buffer[j] == inputs[j]
    {
      buffer[i] := inputs[i];
    }
  }

  class Garbler {
    var buffer: array<Block>

    constructor ()
      ensures fresh(buffer)
    {
      buffer := new Block[0];
    }

    method Generate(c: Circuit, delta: Block, inputs: seq<Block>, garble: GarbleRule)
      returns (r: Result<EncryptedGateIter, StreamError>)
      requires c.WellFormed()
      modifies this, buffer
      ensures buffer == old(buffer) || fresh(buffer)
      ensures |inputs| != c.inputs ==> r == Err(InputLength(c.inputs, |inputs|))
      ensures |inputs| == c.inputs
          ==> r.Ok? && fresh(r.value) && Garbles(r.value, c, delta, inputs, garble) && r.value.labels == buffer
    {
      if |inputs| != c.inputs {
        return Err(InputLength(c.inputs, |inputs|));
      }
      buffer := LoadInputs(buffer, c, inputs);
      FitsPrefix(c, |c.gates|, buffer.Length);
      assert c.gates[..|c.gates|] == c.gates;
      var iter := new EncryptedGateIter(c, delta, buffer, garble);
      r := Ok(iter);
    }
  }

  /** A fresh iterator for the circuit. */
  ghost predicate Garbles(iter: EncryptedGateIter, c: Circuit, delta: Block, inputs: seq<Block>, garble: GarbleRule)
    reads iter, iter.labels
  {
    && iter.Valid() && iter.counter == 0 && iter.delta == delta && iter.garble == garble
    && iter.gates == c.gates && iter.outputs == c.outputs && iter.feedCount == c.feedCount
      && Holds(iter.start, c, inputs)
  }

  class Evaluator {
    var buffer: array<Block>

    constructor ()
      ensures fresh(buffer)
    {
      buffer := new Block[0];
    }

    method Evaluate(c: Circuit, inputs: seq<Block>, evaluate: EvaluateRule)
      returns (r: Result<EncryptedGateConsumer, StreamError>)
      requires c.WellFormed()
      modifies this, buffer
      ensures buffer == old(buffer) || fresh(buffer)
      ensures |inputs| != c.inputs ==> r == Err(InputLength(c.inputs, |inputs|))
      ensures |inputs| == c.inputs
          ==> r.Ok? && fresh(r.value) && Evaluates(r.value, c, inputs, evaluate) && r.value.labels == buffer
    {
      if |inputs| != c.inputs {
        return Err(InputLength(c.inputs, |inputs|));
      }
      buffer := LoadInputs(buffer, c, inputs);
      FitsPrefix(c, |c.gates|, buffer.Length);
      assert c.gates[..|c.gates|] == c.gates;
      var consumer := new EncryptedGateConsumer(c, buffer, evaluate);
      r := Ok(consumer);
    }
  }

  /** A fresh consumer for the circuit. */
  ghost predicate Evaluates(consumer: EncryptedGateConsumer, c: Circuit, inputs: seq<Block>, evaluate: EvaluateRule)
    reads consumer, consumer.labels
  {
    && consumer.Valid() && consumer.used == [] && consumer.evaluate == evaluate
    && consumer.gates == c.gates && consumer.outputs == c.outputs && consumer.feedCount == c.feedCount
      && Holds(consumer.start, c, inputs)
  }

  /** `macs[j]` is the label of output bit `j` under zero label `keys[j]`. */
  ghost predicate OutputsEncode(c: Circuit, macs: seq<Block>, keys: seq<Block>, w: nat -> bool, delta: Block)
    requires c.outputs <= c.feedCount
  {
    |macs| == |keys| == c.outputs && forall j | 0 <= j < c.outputs ::
      Encodes(macs[j], keys[j], c.OutputsOf(w)[j], delta)
  }

  /** Outputs of a finished garbling and a finished evaluation that used its tables. */
  lemma FinishedOutputs(c: Circuit, zero0: seq<Block>, active0: seq<Block>, keys: seq<Block>, macs: seq<Block>,
                        w: nat -> bool, delta: Block, garble: GarbleRule, evaluate: EvaluateRule,
                          tables: seq<EncryptedGate>)
    requires c.WellFormed() && Matching(garble, evaluate, delta) && Holds(zero0, c, keys) && Holds(active0, c, macs)
    requires forall k | 0 <= k < |c.gates| :: Satisfies(c.gates[k], w)
    requires forall i: nat | i < c.inputs :: Encodes(macs[i], keys[i], w(i), delta)
    requires Fits(c.gates, |zero0|) && Fits(c.gates, |active0|)
    requires Tables(c.gates, zero0, delta, garble) <= tables
    ensures OutputsEncode(c, ActiveLabels(c.gates, active0, tables, evaluate)[c.feedCount - c.outputs..c.feedCount],
                          ZeroLabels(c.gates, zero0, delta, garble)[c.feedCount - c.outputs..c.feedCount], w, delta)
  {
    assert forall i: nat | i < c.inputs :: zero0[i] == zero0[..c.inputs][i] && active0[i] == active0[..c.inputs][i];
    assert c.gates[..|c.gates|] == c.gates;
    WiresCorrelated(c, |c.gates|, active0, zero0, w, delta, garble, evaluate, tables);
    var active := ActiveLabels(c.gates, active0, tables, evaluate);
    var zero := ZeroLabels(c.gates, zero0, delta, garble);
    EncodedRange(c, active, zero, w, delta);
  }

  lemma EncodedRange(c: Circuit, active: seq<Block>, zero: seq<Block>, w: nat -> bool, delta: Block)
    requires c.WellFormed() && c.feedCount <= |active| && c.feedCount <= |zero|
        && Correlated(c, |c.gates|, active, zero, w, delta)
    ensures OutputsEncode(c, active[c.feedCount - c.outputs..c.feedCount], zero[c.feedCount - c.outputs..c.feedCount],
                          w, delta)
  {
    forall j | 0 <= j < c.outputs
      ensures Encodes(active[c.feedCount - c.outputs..c.feedCount][j], zero[c.feedCount - c.outputs..c.feedCount][j],
                      c.OutputsOf(w)[j], delta)
    {
      assert c.Defined(c.feedCount - c.outputs + j, |c.gates|);
    }
  }

  /** Garbler and evaluator are at the same gate, and every table made so far was used. */
  ghost predicate Synchronized(iter: EncryptedGateIter, consumer: EncryptedGateConsumer)
    reads iter, iter.labels, consumer, consumer.labels
  {
    && iter.Valid() && consumer.Valid() && iter.gates == consumer.gates
    && iter.counter == consumer.counter && iter.gid == consumer.gid
    && consumer.used == Tables(iter.gates, iter.start, iter.delta, iter.garble)[..iter.counter]
  }

  lemma PaddedUse(tables: seq<EncryptedGate>, batch: seq<EncryptedGate>, from: nat)
    requires from <= |tables| && Padded(batch, tables, from)
    ensures tables[..from] + batch[..Min(|batch|, |tables| - from)] == tables[..Min(from + |batch|, |tables|)]
  {
  }

  /** One batch moves both parties forward by the same number of AND gates. */
  method PassBatch(source: EncryptedGateBatchIter, sink: EncryptedGateBatchConsumer) returns (more: bool)
    requires Synchronized(source.inner, sink.inner) && source.size >= 1 && source.inner.labels != sink.inner.labels
    modifies source.inner, source.inner.labels, sink.inner, sink.inner.labels
    ensures Synchronized(source.inner, sink.inner)
    ensures more <==> old(source.inner.counter) < source.inner.andCount
    ensures source.inner.counter >= old(source.inner.counter)
        && (more ==> source.inner.counter > old(source.inner.counter))
  {
    ghost var tables := Tables(source.inner.gates, source.inner.start, source.inner.delta, source.inner.garble);
    ghost var done := source.inner.counter;
    var batch := source.Next();
    more := batch.Some?;
    if more {
      sink.Next(batch.value);
      PaddedUse(tables, batch.value, done);
    }
  }

  /** Streams a whole circuit in batches: any positive batch size leaves the evaluator with exactly the garbler's
      tables. */
  method PassAll(iter: EncryptedGateIter, consumer: EncryptedGateConsumer, size: nat)
    requires Synchronized(iter, consumer) && size >= 1 && iter.labels != consumer.labels
    modifies iter, iter.labels, consumer, consumer.labels
    ensures Synchronized(iter, consumer) && iter.counter == iter.andCount
  {
    var source := new EncryptedGateBatchIter(iter, size);
    var sink := new EncryptedGateBatchConsumer(consumer);
    var more := true;
    while more
      invariant Synchronized(iter, consumer) && (!more ==> iter.counter == iter.andCount)
      decreases iter.andCount - iter.counter, more
    {
      more := PassBatch(source, sink);
    }
  }

  /** After streaming every table both parties have their outputs. */
  method RunStreams(iter: EncryptedGateIter, consumer: EncryptedGateConsumer, size: nat)
    returns (keys: seq<Block>, macs: seq<Block>)
    requires Synchronized(iter, consumer) && size >= 1 && iter.labels != consumer.labels
    modifies iter, iter.labels, consumer, consumer.labels
    ensures keys == ZeroLabels(iter.gates, iter.start, iter.delta,
                               iter.garble)[iter.feedCount - iter.outputs..iter.feedCount]
    ensures macs == ActiveLabels(consumer.gates, consumer.start,
                                 Tables(iter.gates, iter.start, iter.delta, iter.garble), consumer.evaluate)
                      [consumer.feedCount - consumer.outputs..consumer.feedCount]
  {
    ghost var tables := Tables(iter.gates, iter.start, iter.delta, iter.garble);
    PassAll(iter, consumer, size);
    assert tables[..|tables|] == tables;
    var k := iter.Finish();
    var m := consumer.Finish();
    keys, macs := k.value, m.value;
  }

  /** A whole two-party run, with any batch size, any circuit and buffers left dirty by earlier runs. */
  method GarbleAndEvaluate(gb: Garbler, ev: Evaluator, c: Circuit, delta: Block, keys: seq<Block>, macs: seq<Block>,
                           garble: GarbleRule, evaluate: EvaluateRule, size: nat)
    returns (outputKeys: seq<Block>, outputMacs: seq<Block>)
    requires c.WellFormed() && |keys| == |macs| == c.inputs && size >= 1
    requires Matching(garble, evaluate, delta)
    requires gb.buffer != ev.buffer
    modifies gb, gb.buffer, ev, ev.buffer
    ensures forall w: nat -> bool | EncodesInputs(c, w, keys, macs, delta) ::
        OutputsEncode(c, outputMacs, outputKeys, w, delta)
  {
    var g := gb.Generate(c, delta, keys, garble);
    var iter := g.value;
    var e := ev.Evaluate(c, macs, evaluate);
    var consumer := e.value;
    outputKeys, outputMacs := RunStreams(iter, consumer, size);
    AllOutputs(c, iter.start, consumer.start, keys, macs, delta, garble, evaluate, outputKeys, outputMacs);
  }

  lemma AllOutputs(c: Circuit, zero0: seq<Block>, active0: seq<Block>, keys: seq<Block>, macs: seq<Block>, delta: Block,
                   garble: GarbleRule, evaluate: EvaluateRule, outputKeys: seq<Block>, outputMacs: seq<Block>)
    requires c.WellFormed() && Matching(garble, evaluate, delta) && Holds(zero0, c, keys) && Holds(active0, c, macs)
    requires Fits(c.gates, |zero0|) && Fits(c.gates, |active0|)
    requires outputKeys == ZeroLabels(c.gates, zero0, delta, garble)[c.feedCount - c.outputs..c.feedCount]
    requires outputMacs == ActiveLabels(c.gates, active0, Tables(c.gates, zero0, delta, garble),
                                        evaluate)[c.feedCount - c.outputs..c.feedCount]
    ensures forall w: nat -> bool | EncodesInputs(c, w, keys, macs, delta) ::
        OutputsEncode(c, outputMacs, outputKeys, w, delta)
  {
    forall w: nat -> bool | EncodesInputs(c, w, keys, macs, delta)
      ensures OutputsEncode(c, outputMacs, outputKeys, w, delta)
    {
      FinishedOutputs(c, zero0, active0, keys, macs, w, delta, garble, evaluate, Tables(c.gates, zero0, delta, garble));
    }
  }

  /** The same with half gates under any hash: the output labels encode the circuit's outputs. */
  method HalfGateRun(gb: Garbler, ev: Evaluator, c: Circuit, delta: Block, keys: seq<Block>, macs: seq<Block>,
                     tccr: Hash, size: nat)
    returns (outputKeys: seq<Block>, outputMacs: seq<Block>)
    requires c.WellFormed() && |keys| == |macs| == c.inputs && size >= 1 && delta[0]
    requires gb.buffer != ev.buffer
    modifies gb, gb.buffer, ev, ev.buffer
    ensures forall w: nat -> bool | EncodesInputs(c, w, keys, macs, delta) ::
        OutputsEncode(c, outputMacs, outputKeys, w, delta)
  {
    HalfGatesMatch(tccr, delta);
    outputKeys, outputMacs := GarbleAndEvaluate(gb, ev, c, delta, keys, macs, GarblesWith(tccr, delta),
                                                EvaluatesWith(tccr), size);
  }

  /** `w` solves the circuit on input bits whose labels are `macs` under zero labels `keys`. */
  ghost predicate EncodesInputs(c: Circuit, w: nat -> bool, keys: seq<Block>, macs: seq<Block>, delta: Block)
    requires |keys| == |macs| == c.inputs
  {
    && (forall k | 0 <= k < |c.gates| :: Satisfies(c.gates[k], w))
    && (forall i: nat | i < c.inputs :: Encodes(macs[i], keys[i], w(i), delta))
  }

  // Evaluating stored garbled circuits.

  datatype GarbledJob = GarbledJob(c: Circuit, inputs: seq<Block>, gates: seq<EncryptedGate>)

  /** Whether the job can be evaluated, and what goes wrong otherwise. */
  function JobError(job: GarbledJob): Option<StreamError> {
    if |job.inputs| != job.c.inputs then Some(InputLength(job.c.inputs, |job.inputs|))
    else if |job.gates| < job.c.andCount then Some(NotFinished)
    else None
  }

  function OwnBuffer(c: Circuit, inputs: seq<Block>): seq<Block>
    requires |inputs| == c.inputs <= c.feedCount
  {
    inputs + seq(c.feedCount - c.inputs, _ => ZERO)
  }

  /** The output labels of a job evaluated in a buffer of its own. */
  ghost function JobOutputs(job: GarbledJob, evaluate: EvaluateRule): seq<Block>
    requires job.c.WellFormed() && JobError(job).None?
  {
    var c := job.c;
    OwnBufferHolds(c, job.inputs);
    ActiveLabels(c.gates, OwnBuffer(c, job.inputs), job.gates, evaluate)[c.feedCount - c.outputs..c.feedCount]
  }

  lemma AgreedRange(c: Circuit, s: seq<Block>, t: seq<Block>)
    requires c.WellFormed() && c.feedCount <= |s| && c.feedCount <= |t| && Agree(c, |c.gates|, s, t)
    ensures s[c.feedCount - c.outputs..c.feedCount] == t[c.feedCount - c.outputs..c.feedCount]
  {
    forall j | c.feedCount - c.outputs <= j < c.feedCount ensures s[j] == t[j] {
      assert c.Defined(j, |c.gates|);
    }
  }

  lemma SameOutputs(c: Circuit, s: seq<Block>, t: seq<Block>, inputs: seq<Block>, used: seq<EncryptedGate>,
                    tables: seq<EncryptedGate>, evaluate: EvaluateRule)
    requires c.WellFormed() && Holds(s, c, inputs) && Holds(t, c, inputs) && Fits(c.gates, |s|) && Fits(c.gates, |t|)
    requires used <= tables && |used| == c.andCount
    ensures ActiveLabels(c.gates, s, used, evaluate)[c.feedCount - c.outputs..c.feedCount]
         == ActiveLabels(c.gates, t, tables, evaluate)[c.feedCount - c.outputs..c.feedCount]
  {
    assert c.gates[..|c.gates|] == c.gates;
    assert forall i: nat | i < c.inputs :: s[i] == s[..c.inputs][i] && t[i] == t[..c.inputs][i];
    EvaluationIgnoresBuffer(c, |c.gates|, s, t, used, tables, evaluate);
    AgreedRange(c, ActiveLabels(c.gates, s, used, evaluate), ActiveLabels(c.gates, t, tables, evaluate));
  }

  lemma OwnBufferHolds(c: Circuit, inputs: seq<Block>)
    requires c.WellFormed() && |inputs| == c.inputs
    ensures Holds(OwnBuffer(c, inputs), c, inputs) && Fits(c.gates, |OwnBuffer(c, inputs)|)
  {
    FitsPrefix(c, |c.gates|, c.feedCount);
    assert c.gates[..|c.gates|] == c.gates;
  }

  method EvaluateJob(ev: Evaluator, job: GarbledJob, evaluate: EvaluateRule)
    returns (r: Result<seq<Block>, StreamError>)
    requires job.c.WellFormed()
    modifies ev, ev.buffer
    ensures ev.buffer == old(ev.buffer) || fresh(ev.buffer)
    ensures r.Ok? <==> JobError(job).None?
    ensures r.Err? ==> JobError(job) == Some(r.error)
    ensures r.Ok? ==> r.value == JobOutputs(job, evaluate)
  {
    var e := ev.Evaluate(job.c, job.inputs, evaluate);
    if e.Err? {
      return Err(e.error);
    }
    r := RunJob(e.value, job.gates);
    if r.Ok? {
      OwnBufferHolds(job.c, job.inputs);
      SameOutputs(job.c, e.value.start, OwnBuffer(job.c, job.inputs), job.inputs, job.gates[..job.c.andCount],
                  job.gates, evaluate);
    }
  }

  /** Feeds stored gates to a fresh consumer; the ones beyond the circuit's AND gates are not used. */
  method RunJob(consumer: EncryptedGateConsumer, gates: seq<EncryptedGate>) returns (r: Result<seq<Block>, StreamError>)
    requires consumer.Valid() && consumer.used == []
    modifies consumer, consumer.labels
    ensures r.Ok? <==> |gates| >= consumer.andCount
    ensures r.Err? ==> r.error == NotFinished
    ensures r.Ok?
        ==> r.value == ActiveLabels(consumer.gates, consumer.start, gates[..consumer.andCount], consumer.evaluate)
                                   [consumer.feedCount - consumer.outputs..consumer.feedCount]
  {
    for i := 0 to |gates|
      invariant consumer.Valid() && consumer.counter == Min(i, consumer.andCount)
      invariant consumer.used == gates[..consumer.counter]
    {
      assert i < consumer.andCount ==> gates[..i + 1] == gates[..i] + [gates[i]];
      consumer.Next(gates[i]);
    }
    r := consumer.Finish();
  }

  /** Evaluates jobs one after the other with one reused buffer, stopping at the first that fails. */
  method EvaluateGarbledCircuits(jobs: seq<GarbledJob>, evaluate: EvaluateRule)
    returns (r: Result<seq<seq<Block>>, StreamError>)
    requires forall i | 0 <= i < |jobs| :: jobs[i].c.WellFormed()
    ensures r.Ok? <==> forall i | 0 <= i < |jobs| :: JobError(jobs[i]).None?
    ensures r.Ok? ==> |r.value| == |jobs| && forall i | 0 <= i < |jobs| :: r.value[i] == JobOutputs(jobs[i], evaluate)
    ensures r.Err? ==> exists i :: 0 <= i < |jobs| && JobError(jobs[i]) == Some(r.error) && forall j | 0 <= j < i ::
        JobError(jobs[j]).None?
  {
    var ev := new Evaluator();
    var outputs: seq<seq<Block>> := [];
    for i := 0 to |jobs|
      invariant |outputs| == i && fresh(ev.buffer)
      invariant forall j | 0 <= j < i :: JobError(jobs[j]).None? && outputs[j] == JobOutputs(jobs[j], evaluate)
    {
      var o := EvaluateJob(ev, jobs[i], evaluate);
      if o.Err? {
        return Err(o.error);
      }
      outputs := outputs + [o.value];
    }
    r := Ok(outputs);
  }
}
