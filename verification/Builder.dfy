/** Building circuits: constant folding while gates are added, and renumbering at the end. */
module Builder {
  import opened Circuits
  import opened Results

  /** `w` gives ids 0 and 1 their constant values and meets every gate equation. */
  ghost predicate Models(w: nat -> bool, gates: seq<Gate>) {
    !w(0) && w(1) && forall k | 0 <= k < |gates| :: Satisfies(gates[k], w)
  }

  ghost predicate IsGateOutput(gates: seq<Gate>, v: nat) {
    exists k :: 0 <= k < |gates| && gates[k].z == v
  }

  lemma ModelsAppend(gates: seq<Gate>, g: Gate)
    ensures forall w: nat -> bool :: Models(w, gates + [g]) ==> Models(w, gates) && Satisfies(g, w)
  {
    forall w: nat -> bool | Models(w, gates + [g])
      ensures Models(w, gates) && Satisfies(g, w)
    {
      assert (gates + [g])[|gates|] == g;
      forall k | 0 <= k < |gates| ensures Satisfies(gates[k], w) {
        assert (gates + [g])[k] == gates[k];
      }
    }
  }

  lemma AppendCounts(gates: seq<Gate>, g: Gate)
    ensures AndCount(gates + [g]) == AndCount(gates) + (if g.AndGate? then 1 else 0) && IsGateOutput(gates + [g], g.z)
  {
    var gates' := gates + [g];
    assert gates'[..|gates'| - 1] == gates && gates'[|gates|] == g;
  }

  class CircuitBuilder {
    var feedId: nat
    var inputs: seq<nat>
    var outputs: seq<nat>
    var gates: seq<Gate>
    var andCount: nat
    var xorCount: nat

    /** Every id from 2 up is an input or the output of exactly one gate; gates read only older ids, never a constant.
        */
    ghost predicate Valid()
      reads this
    {
      && WellNumbered(feedId, inputs, gates)
      && andCount == AndCount(gates)
      && forall j | 0 <= j < |outputs| :: outputs[j] < feedId
    }

    constructor ()
      ensures Valid() && feedId == 2 && inputs == [] && outputs == [] && gates == []
    {
      feedId, inputs, outputs, gates, andCount, xorCount := 2, [], [], [], 0, 0;
    }

    method AddInput() returns (node: nat)
      requires Valid()
      modifies this
      ensures Valid() && node == old(feedId) && feedId == node + 1
      ensures inputs == old(inputs) + [node] && outputs == old(outputs) && gates == old(gates)
    {
      node := feedId;
      feedId := feedId + 1;
      inputs := inputs + [node];
    }

    method AddOutput(node: nat)
      requires Valid() && node < feedId
      modifies this
      ensures Valid() && feedId == old(feedId) && inputs == old(inputs) && gates == old(gates)
      ensures outputs == old(outputs) + [node]
    {
      outputs := outputs + [node];
    }

    /** Appends a gate writing the next id. */
    method Push(g: Gate)
      requires Valid() && g.z == feedId && forall v: nat :: Reads(g, v) ==> 2 <= v < feedId
      modifies this
      ensures Valid() && feedId == old(feedId) + 1 && inputs == old(inputs) && outputs == old(outputs)
      ensures gates == old(gates) + [g] && IsGateOutput(gates, g.z)
      ensures forall w: nat -> bool :: Models(w, gates) ==> Models(w, old(gates)) && Satisfies(g, w)
    {
      ModelsAppend(gates, g);
      AppendNumbered(feedId, inputs, gates, g);
      AppendCounts(gates, g);
      var ands, xors := andCount + if g.AndGate? then 1 else 0, xorCount + if g.XorGate? then 1 else 0;
      gates, feedId, andCount, xorCount := gates + [g], feedId + 1, ands, xors;
    }

    /** The state after adding gates: ids and gates only grow, and new models are old models. */
    twostate predicate Grown()
      reads this
    {
      && Valid() && old(feedId) <= feedId && inputs == old(inputs) && outputs == old(outputs)
      && old(gates) <= gates
      && forall w: nat -> bool :: Models(w, gates) ==> Models(w, old(gates))
    }

    method AddXorGate(x: nat, y: nat) returns (out: nat)
      requires Valid() && x < feedId && y < feedId
      modifies this
      ensures Grown() && out < feedId
      ensures forall w: nat -> bool :: Models(w, gates) ==> w(out) == (w(x) != w(y))
      ensures x >= 2 && y >= 2 ==> out == old(feedId) && feedId == out + 1 && IsGateOutput(gates, out)
    {
      if (x == 0 && y == 0) || (x == 1 && y == 1) {
        out := 0;
      } else if x == 0 {
        out := y;
      } else if y == 0 {
        out := x;
      } else if x == 1 {
        out := feedId;
        Push(InvGate(y, out));
      } else if y == 1 {
        out := feedId;
        Push(InvGate(x, out));
      } else {
        out := feedId;
        Push(XorGate(x, y, out));
      }
    }

    method AddAndGate(x: nat, y: nat) returns (out: nat)
      requires Valid() && x < feedId && y < feedId
      modifies this
      ensures Grown() && out < feedId
      ensures forall w: nat -> bool :: Models(w, gates) ==> w(out) == (w(x) && w(y))
      ensures x >= 2 && y >= 2 ==> out == old(feedId) && feedId == out + 1 && IsGateOutput(gates, out)
    {
      if x == 0 || y == 0 {
        out := 0;
      } else if x == 1 {
        out := y;
      } else if y == 1 {
        out := x;
      } else {
        out := feedId;
        Push(AndGate(x, y, out));
      }
    }

    method AddInvGate(x: nat) returns (out: nat)
      requires Valid() && x < feedId
      modifies this
      ensures Grown() && out < feedId
      ensures forall w: nat -> bool :: Models(w, gates) ==> w(out) == !w(x)
      ensures x >= 2 ==> out == old(feedId) && feedId == out + 1 && IsGateOutput(gates, out)
    {
      if x == 0 {
        out := 1;
      } else if x == 1 {
        out := 0;
      } else {
        out := feedId;
        Push(InvGate(x, out));
      }
    }

    method AddIdGate(x: nat) returns (out: nat)
      requires Valid() && x < feedId
      modifies this
      ensures Grown() && out < feedId
      ensures forall w: nat -> bool :: Models(w, gates) ==> w(out) == w(x)
      ensures x >= 2 ==> out == old(feedId) && feedId == out + 1 && IsGateOutput(gates, out)
    {
      if x == 0 {
        out := 0;
      } else if x == 1 {
        out := 1;
      } else {
        out := feedId;
        Push(IdGate(x, out));
      }
    }

    /** Renumbers wires into inputs, intermediates and outputs. `None` is a panic: an output is a constant, or there are
        more outputs than wires. If every output has a place of its own, the builder's meaning is unchanged. */
    method Build() returns (r: Option<Circuit>)
      requires Valid()
      ensures r.Some? <==> OutputsInRange(outputs, feedId) && |outputs| <= feedId - 2
      ensures r.Some?
          ==> r.value == Rebuilt(Lookup(FinalIds(feedId, inputs, outputs, gates)), feedId, inputs, outputs, gates,
                                 xorCount)
      ensures OutputsPlaced(outputs, inputs, gates) ==>
        && r.Some? && r.value.WellFormed() && r.value.inputs == |inputs| && r.value.outputs == |outputs|
        && r.value.andCount == andCount && r.value.xorCount == xorCount
        && forall w: nat -> bool, bits: seq<bool> :: MeetsInputs(w, gates, inputs, bits)
                                                     ==> Yields(r.value, bits, ValuesOf(w, outputs))
    {
      if OutputsPlaced(outputs, inputs, gates) {
        PlacedInRange(outputs, feedId, inputs, gates);
      }
      if (exists j | 0 <= j < |outputs| :: outputs[j] < 2) || |outputs| > feedId - 2 {
        return None;
      }
      var idMap, zs := NumberWires(feedId, inputs, outputs, gates);
      var renamed := RenameGates(feedId, inputs, gates, idMap, zs);
      var c := Circuit(|inputs|, |outputs|, renamed, feedId - 2, andCount, xorCount);
      assert c == Rebuilt(Lookup(idMap[..]), feedId, inputs, outputs, gates, xorCount);
      if OutputsPlaced(outputs, inputs, gates) {
        RebuiltCorrect(c, feedId, inputs, outputs, gates);
      }
      r := Some(c);
    }
  }

  /** `w` models the builder's gates on the given input bits. */
  ghost predicate MeetsInputs(w: nat -> bool, gates: seq<Gate>, inputs: seq<nat>, bits: seq<bool>) {
    Models(w, gates) && |bits| == |inputs| && forall i | 0 <= i < |inputs| :: w(inputs[i]) == bits[i]
  }

  function ValuesOf(w: nat -> bool, nodes: seq<nat>): seq<bool> {
    seq(|nodes|, j requires 0 <= j < |nodes| => w(nodes[j]))
  }

  /** The circuit has a solution on `bits` whose outputs are `out`. */
  ghost predicate Yields(c: Circuit, bits: seq<bool>, out: seq<bool>) {
    |bits| >= c.inputs && c.outputs <= c.feedCount && exists w: nat -> bool ::
      c.Solves(bits, w) && c.OutputsOf(w) == out
  }

  /** No output is a constant. */
  predicate OutputsInRange(outputs: seq<nat>, feedId: nat) {
    forall j | 0 <= j < |outputs| :: 2 <= outputs[j] < feedId
  }

  /** What `build` may assume of the outputs: distinct nodes computed by gates. */
  ghost predicate OutputsAreGates(outputs: seq<nat>, gates: seq<Gate>) {
    && (forall j | 0 <= j < |outputs| :: IsGateOutput(gates, outputs[j]))
    && (forall i, j | 0 <= i < j < |outputs| :: outputs[i] != outputs[j])
  }

  /** Distinct outputs, each with a place among the last wires: an output placed among the inputs is the input that is
      there, every other output is computed by a gate. */
  ghost predicate OutputsPlaced(outputs: seq<nat>, inputs: seq<nat>, gates: seq<Gate>) {
    var n := |inputs| + |gates|;
    && |outputs| <= n
    && (forall i, j | 0 <= i < j < |outputs| :: outputs[i] != outputs[j])
    && forall j | 0 <= j < |outputs| ::
      if n - |outputs| + j < |inputs| then outputs[j] == inputs[n - |outputs| + j] else IsGateOutput(gates, outputs[j])
  }

  lemma PlacedInRange(outputs: seq<nat>, feedId: nat, inputs: seq<nat>, gates: seq<Gate>)
    requires WellNumbered(feedId, inputs, gates) && OutputsPlaced(outputs, inputs, gates)
    ensures OutputsInRange(outputs, feedId) && |outputs| <= feedId - 2
  {
    var n := |inputs| + |gates|;
    forall j | 0 <= j < |outputs| ensures 2 <= outputs[j] < feedId {
      if n - |outputs| + j >= |inputs| {
        assert IsGateOutput(gates, outputs[j]);
      }
    }
  }

  /** Distinct gate outputs always have a place. */
  lemma GatesPlaced(feedId: nat, outputs: seq<nat>, inputs: seq<nat>, gates: seq<Gate>)
    requires WellNumbered(feedId, inputs, gates) && OutputsAreGates(outputs, gates)
    ensures OutputsPlaced(outputs, inputs, gates)
  {
    OutputCount(outputs, gates);
  }

  // The id map.

  /** The map after giving `nodes` the ids from `base`, a later occurrence of a node overwriting an earlier one. */
  function PlacedIds(ids: seq<nat>, nodes: seq<nat>, base: nat): (r: seq<nat>)
    requires OutputsInRange(nodes, |ids| + 2)
    ensures |r| == |ids|
  {
    if nodes == [] then ids
    else
      var n := |nodes| - 1;
      PlacedIds(ids, nodes[..n], base)[nodes[n] - 2 := base + n]
  }

  predicate GatesInRange(gates: seq<Gate>, feedId: nat) {
    forall k | 0 <= k < |gates| :: 2 <= gates[k].z < feedId
  }

  /** One node gets the next id unless it has one. */
  function NextIds(ids: seq<nat>, z: nat, next: nat): (seq<nat>, nat)
    requires z < |ids|
  {
    if ids[z] == 0 then (ids[z := next], next + 1) else (ids, next)
  }

  /** The map and the next free id after each of the first `k` gate outputs without an id has been given the next one.
      */
  function NumberedIds(ids: seq<nat>, gates: seq<Gate>, next: nat, k: nat): (r: (seq<nat>, nat))
    requires GatesInRange(gates, |ids| + 2) && k <= |gates|
    ensures |r.0| == |ids|
  {
    if k == 0 then (ids, next)
    else
      var before := NumberedIds(ids, gates, next, k - 1);
      NextIds(before.0, gates[k - 1].z - 2, before.1)
  }

  /** The map after inputs and outputs have their ids. */
  function EndIds(feedId: nat, inputs: seq<nat>, outputs: seq<nat>): (r: seq<nat>)
    requires feedId >= 2 && OutputsInRange(inputs, feedId) && OutputsInRange(outputs, feedId) && |outputs| <= feedId - 2
    ensures |r| == feedId - 2
  {
    PlacedIds(PlacedIds(seq(feedId - 2, _ => 0), inputs, 0), outputs, feedId - 2 - |outputs|)
  }

  /** The whole id map: inputs, then outputs, then every remaining gate output in order. */
  function FinalIds(feedId: nat, inputs: seq<nat>, outputs: seq<nat>, gates: seq<Gate>): (r: seq<nat>)
    requires feedId >= 2 && OutputsInRange(inputs, feedId) && OutputsInRange(outputs, feedId) && |outputs| <= feedId - 2
    requires GatesInRange(gates, feedId)
    ensures |r| == feedId - 2
  {
    NumberedIds(EndIds(feedId, inputs, outputs), gates, |inputs|, |gates|).0
  }

  method NumberWires(feedId: nat, inputs: seq<nat>, outputs: seq<nat>, gates: seq<Gate>)
    returns (idMap: array<nat>, zs: seq<nat>)
    requires WellNumbered(feedId, inputs, gates) && OutputsInRange(outputs, feedId) && |outputs| <= feedId - 2
    ensures fresh(idMap) && idMap[..] == FinalIds(feedId, inputs, outputs, gates)
    ensures |zs| == |gates| && forall k | 0 <= k < |gates| :: zs[k] == Lookup(idMap[..])(gates[k].z)
  {
    idMap := ZeroMap(feedId - 2);
    Place(idMap, inputs, 0);
    Place(idMap, outputs, feedId - 2 - |outputs|);
    zs := NumberGates(idMap, gates, |inputs|);
    CopiedLookup(zs, idMap[..], gates);
  }

  method ZeroMap(n: nat) returns (idMap: array<nat>)
    ensures fresh(idMap) && idMap[..] == seq(n, _ => 0)
  {
    idMap := new nat[n](_ => 0);
  }

  /** Gives `nodes` the ids from `base`. */
  method Place(idMap: array<nat>, nodes: seq<nat>, base: nat)
    requires OutputsInRange(nodes, idMap.Length + 2)
    modifies idMap
    ensures idMap[..] == PlacedIds(old(idMap[..]), nodes, base)
  {
    ghost var ids := idMap[..];
    for i := 0 to |nodes|
      invariant idMap[..] == PlacedIds(ids, nodes[..i], base)
    {
      assert nodes[..i + 1][..i] == nodes[..i];
      ghost var was := idMap[..];
      idMap[nodes[i] - 2] := base + i;
      ghost var id: nat := base + i;
      assert idMap[..] == was[nodes[i] - 2 := id];
    }
    assert nodes[..|nodes|] == nodes;
  }

  /** Gives every gate output without an id the next one, and returns the new ids of the gate outputs. */
  method NumberGates(idMap: array<nat>, gates: seq<Gate>, start: nat) returns (zs: seq<nat>)
    requires GatesInRange(gates, idMap.Length + 2) && forall i, j | 0 <= i < j < |gates| :: gates[i].z < gates[j].z
    modifies idMap
    ensures idMap[..] == NumberedIds(old(idMap[..]), gates, start, |gates|).0
    ensures Copied(zs, idMap[..], gates, |gates|)
  {
    ghost var ids := idMap[..];
    var nextId := start;
    zs := [];
    for k := 0 to |gates|
      invariant (idMap[..], nextId) == NumberedIds(ids, gates, start, k)
      invariant Copied(zs, idMap[..], gates, k)
    {
      ghost var was := idMap[..];
      var id;
      nextId, id := NumberGate(idMap, gates[k].z - 2, nextId);
      CopiedStep(zs, was, idMap[..], gates, k);
      zs := zs + [id];
    }
  }

  /** Gives node `z` the next id unless it already has one. */
  method NumberGate(idMap: array<nat>, z: nat, nextId: nat) returns (next: nat, id: nat)
    requires z < idMap.Length
    modifies idMap
    ensures (idMap[..], next) == NextIds(old(idMap[..]), z, nextId)
    ensures id == idMap[..][z]
  {
    ghost var ids := idMap[..];
    next := nextId;
    if idMap[z] == 0 {
      idMap[z] := nextId;
      next := nextId + 1;
      assert idMap[..] == ids[z := nextId];
    }
    id := idMap[z];
  }

  /** `zs` holds the new ids of the first `k` gate outputs. */
  ghost predicate Copied(zs: seq<nat>, ids: seq<nat>, gates: seq<Gate>, k: nat) {
    |zs| == k <= |gates| && forall j | 0 <= j < k :: 2 <= gates[j].z < |ids| + 2 && zs[j] == ids[gates[j].z - 2]
  }

  lemma CopiedLookup(zs: seq<nat>, ids: seq<nat>, gates: seq<Gate>)
    requires Copied(zs, ids, gates, |gates|)
    ensures forall k | 0 <= k < |gates| :: zs[k] == Lookup(ids)(gates[k].z)
  {
  }

  lemma CopiedStep(zs: seq<nat>, ids: seq<nat>, ids': seq<nat>, gates: seq<Gate>, k: nat)
    requires Copied(zs, ids, gates, k) && k < |gates| && |ids'| == |ids|
    requires 2 <= gates[k].z < |ids| + 2 && forall i, j | 0 <= i < j < |gates| :: gates[i].z < gates[j].z
    requires forall v | 0 <= v < |ids| && v != gates[k].z - 2 :: ids'[v] == ids[v]
    ensures Copied(zs + [ids'[gates[k].z - 2]], ids', gates, k + 1)
  {
  }

  method RenameGates(feedId: nat, inputs: seq<nat>, gates: seq<Gate>, idMap: array<nat>, zs: seq<nat>)
    returns (renamed: seq<Gate>)
    requires WellNumbered(feedId, inputs, gates) && idMap.Length == feedId - 2 && |zs| == |gates|
    requires forall k | 0 <= k < |gates| :: zs[k] == Lookup(idMap[..])(gates[k].z)
    ensures |renamed| == |gates| && forall k | 0 <= k < |gates| :: renamed[k] == Renamed(gates[k], Lookup(idMap[..]))
  {
    renamed := [];
    for k := 0 to |gates|
      invariant |renamed| == k
      invariant forall j | 0 <= j < k :: renamed[j] == Renamed(gates[j], Lookup(idMap[..]))
    {
      var g := gates[k];
      assert Reads(g, g.x) && (g.XorGate? || g.AndGate? ==> Reads(g, g.y));
      var g' := match g
        case XorGate(x, y, _) => XorGate(idMap[x - 2], idMap[y - 2], zs[k])
        case AndGate(x, y, _) => AndGate(idMap[x - 2], idMap[y - 2], zs[k])
        case InvGate(x, _) => InvGate(idMap[x - 2], zs[k])
        case IdGate(x, _) => IdGate(idMap[x - 2], zs[k]);
      renamed := renamed + [g'];
    }
  }

  function Lookup(ids: seq<nat>): nat -> nat {
    (v: nat) => if 2 <= v < |ids| + 2 then ids[v - 2] else 0
  }

  /** The gate outputs that are not circuit outputs. */
  ghost function Intermediates(gates: seq<Gate>, outputs: seq<nat>): set<nat> {
    set k | 0 <= k < |gates| && gates[k].z !in outputs :: gates[k].z
  }

  /** The state of the id map after `k` gates: inputs and outputs placed, intermediates numbered in gate order. */
  ghost predicate Assigned(feedId: nat, ids: seq<nat>, inputs: seq<nat>, outputs: seq<nat>, gates: seq<Gate>, k: nat,
                           next: nat)
    requires |ids| == |inputs| + |gates| && |outputs| <= |gates| && k <= |gates|
    requires |ids| + 2 == feedId && WellNumbered(feedId, inputs, gates) && OutputsAreGates(outputs, gates)
  {
    && |inputs| <= next <= |ids| - |outputs|
    && (forall i | 0 <= i < |inputs| :: ids[inputs[i] - 2] == i)
    && (forall j | 0 <= j < |outputs| :: 2 <= outputs[j] < |ids| + 2 && ids[outputs[j] - 2] == |ids| - |outputs| + j)
    && (forall j | 0 <= j < k && gates[j].z !in outputs :: |inputs| <= ids[gates[j].z - 2] < next)
    && (forall i, j | 0 <= i < j < k && gates[i].z !in outputs && gates[j].z !in outputs ::
          ids[gates[i].z - 2] < ids[gates[j].z - 2])
    && (forall j | k <= j < |gates| && gates[j].z !in outputs :: ids[gates[j].z - 2] == 0)
  }

  /** Giving gate `k`'s output the next id disturbs no other id. */
  lemma AssignNew(feedId: nat, ids: seq<nat>, ids': seq<nat>, inputs: seq<nat>, outputs: seq<nat>, gates: seq<Gate>,
                  k: nat, next: nat)
    requires |ids| == |inputs| + |gates| && |outputs| <= |gates| && k < |gates|
    requires |ids| + 2 == feedId && WellNumbered(feedId, inputs, gates) && OutputsAreGates(outputs, gates)
    requires Assigned(feedId, ids, inputs, outputs, gates, k, next)
    requires gates[k].z !in outputs && next < |ids| - |outputs| && ids' == ids[gates[k].z - 2 := next]
    ensures Assigned(feedId, ids', inputs, outputs, gates, k + 1, next + 1)
  {
    var z := gates[k].z;
    forall i | 0 <= i < |inputs| ensures ids'[inputs[i] - 2] == i {
      assert inputs[i] in inputs;
    }
    forall j | 0 <= j < |outputs| ensures 2 <= outputs[j] < |ids| + 2 && ids'[outputs[j] - 2] == ids[outputs[j] - 2] {
      assert outputs[j] in outputs;
    }
    forall j | 0 <= j < |gates| && j != k ensures ids'[gates[j].z - 2] == ids[gates[j].z - 2] {
      assert gates[j].z != z;
    }
  }

  /** An output keeps the id it was given before the gates. */
  lemma AssignPlaced(feedId: nat, ids: seq<nat>, inputs: seq<nat>, outputs: seq<nat>, gates: seq<Gate>, k: nat,
                     next: nat)
    requires |ids| == |inputs| + |gates| && |outputs| <= |gates| && k < |gates| && inputs != []
    requires |ids| + 2 == feedId && WellNumbered(feedId, inputs, gates) && OutputsAreGates(outputs, gates)
    requires Assigned(feedId, ids, inputs, outputs, gates, k, next) && gates[k].z in outputs
    ensures ids[gates[k].z - 2] != 0 && Assigned(feedId, ids, inputs, outputs, gates, k + 1, next)
  {
    var j :| 0 <= j < |outputs| && outputs[j] == gates[k].z;
  }

  /** A gate output still unmapped after `k` gates is an intermediate; the circuit outputs are never zero. */
  lemma AssignStep(feedId: nat, ids: seq<nat>, inputs: seq<nat>, outputs: seq<nat>, gates: seq<Gate>, k: nat, next: nat,
                   z: nat, r: (seq<nat>, nat))
    requires |ids| == |inputs| + |gates| && |outputs| <= |gates| && k < |gates| && inputs != []
    requires |ids| + 2 == feedId && WellNumbered(feedId, inputs, gates) && OutputsAreGates(outputs, gates)
    requires Assigned(feedId, ids, inputs, outputs, gates, k, next)
    requires gates[k].z !in outputs ==> next < |ids| - |outputs|
    requires z + 2 == gates[k].z && z < |ids| && r == NextIds(ids, z, next)
    ensures |r.0| == |ids| && Assigned(feedId, r.0, inputs, outputs, gates, k + 1, r.1)
    ensures r.1 == next + if gates[k].z in outputs then 0 else 1
  {
    if gates[k].z in outputs {
      AssignPlaced(feedId, ids, inputs, outputs, gates, k, next);
    } else {
      AssignNew(feedId, ids, r.0, inputs, outputs, gates, k, next);
    }
  }

  /** Where a gate output ends up. */
  lemma AssignedGate(ids: seq<nat>, feedId: nat, inputs: seq<nat>, outputs: seq<nat>, gates: seq<Gate>, next: nat,
                     k: nat)
    requires |ids| + 2 == feedId && |outputs| <= |gates| && k < |gates|
    requires WellNumbered(feedId, inputs, gates) && OutputsAreGates(outputs, gates)
    requires Assigned(feedId, ids, inputs, outputs, gates, |gates|, next)
    ensures |inputs| <= ids[gates[k].z - 2] < |ids|
    ensures gates[k].z in outputs <==> ids[gates[k].z - 2] >= |ids| - |outputs|
  {
    if gates[k].z in outputs {
      var j :| 0 <= j < |outputs| && outputs[j] == gates[k].z;
    }
  }

  lemma AssignedClass(ids: seq<nat>, feedId: nat, inputs: seq<nat>, outputs: seq<nat>, gates: seq<Gate>, next: nat,
                      u: nat)
    requires |ids| + 2 == feedId && |outputs| <= |gates| && 2 <= u < feedId
    requires WellNumbered(feedId, inputs, gates) && OutputsAreGates(outputs, gates)
    requires Assigned(feedId, ids, inputs, outputs, gates, |gates|, next)
    ensures ids[u - 2] < |ids|
    ensures u in inputs <==> ids[u - 2] < |inputs|
    ensures u in outputs <==> ids[u - 2] >= |ids| - |outputs|
  {
    OutputsNotInputs(feedId, inputs, outputs, gates);
    if u in inputs {
      var i :| 0 <= i < |inputs| && inputs[i] == u;
      assert ids[u - 2] == i;
    } else {
      assert IsGateOutput(gates, u);
      var k :| 0 <= k < |gates| && gates[k].z == u;
      AssignedGate(ids, feedId, inputs, outputs, gates, next, k);
    }
  }

  /** Nodes placed one after another from `base` keep distinct ids. */
  lemma PlacedInjective(ids: seq<nat>, nodes: seq<nat>, base: nat, u: nat, v: nat)
    requires forall i | 0 <= i < |nodes| :: 2 <= nodes[i] < |ids| + 2 && ids[nodes[i] - 2] == base + i
    requires u in nodes && v in nodes && ids[u - 2] == ids[v - 2]
    ensures u == v
  {
    var i :| 0 <= i < |nodes| && nodes[i] == u;
    var j :| 0 <= j < |nodes| && nodes[j] == v;
  }

  lemma OrderedInjective(ids: seq<nat>, gates: seq<Gate>, outputs: seq<nat>, u: nat, v: nat)
    requires forall i | 0 <= i < |gates| :: 2 <= gates[i].z < |ids| + 2
    requires forall i, j | 0 <= i < j < |gates| && gates[i].z !in outputs && gates[j].z !in outputs ::
               ids[gates[i].z - 2] < ids[gates[j].z - 2]
    requires IsGateOutput(gates, u) && IsGateOutput(gates, v) && u !in outputs && v !in outputs
    requires ids[u - 2] == ids[v - 2]
    ensures u == v
  {
    var i :| 0 <= i < |gates| && gates[i].z == u;
    var j :| 0 <= j < |gates| && gates[j].z == v;
  }

  lemma AssignedInjective(ids: seq<nat>, feedId: nat, inputs: seq<nat>, outputs: seq<nat>, gates: seq<Gate>, next: nat,
                          u: nat, v: nat)
    requires |ids| + 2 == feedId && |outputs| <= |gates| && 2 <= u < feedId && 2 <= v < feedId
    requires WellNumbered(feedId, inputs, gates) && OutputsAreGates(outputs, gates)
    requires Assigned(feedId, ids, inputs, outputs, gates, |gates|, next)
    requires ids[u - 2] == ids[v - 2]
    ensures u == v
  {
    AssignedClass(ids, feedId, inputs, outputs, gates, next, u);
    AssignedClass(ids, feedId, inputs, outputs, gates, next, v);
    if u in inputs {
      PlacedInjective(ids, inputs, 0, u, v);
    } else if u in outputs {
      PlacedInjective(ids, outputs, |ids| - |outputs|, u, v);
    } else {
      OrderedInjective(ids, gates, outputs, u, v);
    }
  }

  lemma AssignedRenumbers(ids: seq<nat>, feedId: nat, inputs: seq<nat>, outputs: seq<nat>, gates: seq<Gate>, next: nat)
    requires |ids| + 2 == feedId && |outputs| <= |gates|
    requires WellNumbered(feedId, inputs, gates) && OutputsAreGates(outputs, gates)
    requires Assigned(feedId, ids, inputs, outputs, gates, |gates|, next)
    ensures Renumbers(Lookup(ids), feedId, inputs, outputs)
  {
    var m := Lookup(ids);
    forall u: nat | 2 <= u < feedId ensures m(u) < |ids| {
      AssignedClass(ids, feedId, inputs, outputs, gates, next, u);
    }
    forall u: nat, v: nat | 2 <= u < feedId && 2 <= v < feedId && m(u) == m(v)
      ensures u == v
    {
      AssignedInjective(ids, feedId, inputs, outputs, gates, next, u, v);
    }
  }

  lemma {:induction false} PlacedFrame(ids: seq<nat>, nodes: seq<nat>, base: nat, v: nat)
    requires OutputsInRange(nodes, |ids| + 2) && v < |ids| && forall j | 0 <= j < |nodes| :: nodes[j] != v + 2
    ensures PlacedIds(ids, nodes, base)[v] == ids[v]
  {
    if nodes != [] {
      PlacedFrame(ids, nodes[..|nodes| - 1], base, v);
    }
  }

  /** Distinct nodes get consecutive ids. */
  lemma {:induction false} PlacedAt(ids: seq<nat>, nodes: seq<nat>, base: nat, j: nat)
    requires OutputsInRange(nodes, |ids| + 2) && j < |nodes| && forall i, k | 0 <= i < k < |nodes| ::
        nodes[i] != nodes[k]
    ensures PlacedIds(ids, nodes, base)[nodes[j] - 2] == base + j
  {
    var n := |nodes| - 1;
    if j < n {
      PlacedAt(ids, nodes[..n], base, j);
      assert nodes[..n][j] == nodes[j];
    }
  }

  lemma PlacedLast(ids: seq<nat>, nodes: seq<nat>, base: nat, n: nat)
    requires OutputsInRange(nodes, |ids| + 2) && n + 1 == |nodes|
    ensures OutputsInRange(nodes[..n], |ids| + 2)
    ensures PlacedIds(ids, nodes, base) == PlacedIds(ids, nodes[..n], base)[nodes[n] - 2 := base + n]
  {
  }

  /** Giving a node the id it has already changes nothing. */
  lemma {:induction false} PlacedAgain(ids: seq<nat>, nodes: seq<nat>, base: nat, skip: nat)
    requires OutputsInRange(nodes, |ids| + 2) && skip <= |nodes|
    requires forall j | 0 <= j < skip :: ids[nodes[j] - 2] == base + j
    ensures OutputsInRange(nodes[skip..], |ids| + 2)
        && PlacedIds(ids, nodes, base) == PlacedIds(ids, nodes[skip..], base + skip)
  {
    var rest := nodes[skip..];
    if skip < |nodes| {
      var n := |nodes| - 1;
      PlacedAgain(ids, nodes[..n], base, skip);
      PlacedLast(ids, nodes, base, n);
      PlacedLast(ids, rest, base + skip, n - skip);
      assert rest[..n - skip] == nodes[..n][skip..];
    } else {
      assert rest == [];
      PlacedUnchanged(ids, nodes, base);
    }
  }

  lemma {:induction false} PlacedUnchanged(ids: seq<nat>, nodes: seq<nat>, base: nat)
    requires OutputsInRange(nodes, |ids| + 2) && forall j | 0 <= j < |nodes| :: ids[nodes[j] - 2] == base + j
    ensures PlacedIds(ids, nodes, base) == ids
  {
    if nodes != [] {
      var n := |nodes| - 1;
      PlacedUnchanged(ids, nodes[..n], base);
      PlacedLast(ids, nodes, base, n);
      SameEntry(ids, nodes[n] - 2);
    }
  }

  lemma SameEntry<T>(s: seq<T>, i: nat)
    requires i < |s|
    ensures s[i := s[i]] == s
  {
  }

  lemma AssignedStart(feedId: nat, ids: seq<nat>, inputs: seq<nat>, outputs: seq<nat>, gates: seq<Gate>)
    requires |ids| == |inputs| + |gates| && |outputs| <= |gates|
    requires |ids| + 2 == feedId && WellNumbered(feedId, inputs, gates) && OutputsAreGates(outputs, gates)
        && OutputsInRange(outputs, |ids| + 2)
    requires forall i | 0 <= i < |inputs| :: ids[inputs[i] - 2] == i
    requires forall j | 0 <= j < |outputs| :: ids[outputs[j] - 2] == |ids| - |outputs| + j
    requires forall k | 0 <= k < |gates| && gates[k].z !in outputs :: ids[gates[k].z - 2] == 0
    ensures Assigned(feedId, ids, inputs, outputs, gates, 0, |inputs|)
  {
  }

  /** An input keeps its place, an output has its own, and another node has none. */
  lemma EndsAt(zeros: seq<nat>, inputs: seq<nat>, outputs: seq<nat>, start: nat, v: nat)
    requires OutputsInRange(inputs, |zeros| + 2) && OutputsInRange(outputs, |zeros| + 2) && 2 <= v < |zeros| + 2
    requires forall i, j | 0 <= i < j < |inputs| :: inputs[i] != inputs[j]
    requires forall i, j | 0 <= i < j < |outputs| :: outputs[i] != outputs[j]
    ensures var ids := PlacedIds(PlacedIds(zeros, inputs, 0), outputs, start);
            && (forall j | 0 <= j < |outputs| && outputs[j] == v :: ids[v - 2] == start + j)
            && (v !in outputs ==> forall i | 0 <= i < |inputs| && inputs[i] == v :: ids[v - 2] == i)
            && (v !in outputs && v !in inputs ==> ids[v - 2] == zeros[v - 2])
  {
    var first := PlacedIds(zeros, inputs, 0);
    forall j | 0 <= j < |outputs| && outputs[j] == v ensures PlacedIds(first, outputs, start)[v - 2] == start + j {
      PlacedAt(first, outputs, start, j);
    }
    if v !in outputs {
      PlacedFrame(first, outputs, start, v - 2);
      forall i | 0 <= i < |inputs| && inputs[i] == v ensures first[v - 2] == i {
        PlacedAt(zeros, inputs, 0, i);
      }
      if v !in inputs {
        PlacedFrame(zeros, inputs, 0, v - 2);
      }
    }
  }

  /** Inputs and outputs are in place and nothing else has an id. */
  lemma EndsAssigned(feedId: nat, inputs: seq<nat>, outputs: seq<nat>, gates: seq<Gate>)
    requires WellNumbered(feedId, inputs, gates) && OutputsAreGates(outputs, gates)
    ensures OutputsInRange(outputs, feedId) && |outputs| <= |gates|
    ensures Assigned(feedId, EndIds(feedId, inputs, outputs), inputs, outputs, gates, 0, |inputs|)
  {
    OutputCount(outputs, gates);
    OutputsNotInputs(feedId, inputs, outputs, gates);
    var ids := EndIds(feedId, inputs, outputs);
    forall v: nat | 2 <= v < feedId
      ensures forall j | 0 <= j < |outputs| && outputs[j] == v :: ids[v - 2] == feedId - 2 - |outputs| + j
      ensures v !in outputs ==> forall i | 0 <= i < |inputs| && inputs[i] == v :: ids[v - 2] == i
      ensures v !in outputs && v !in inputs ==> ids[v - 2] == 0
    {
      EndsAt(seq(feedId - 2, _ => 0), inputs, outputs, feedId - 2 - |outputs|, v);
    }
    forall i | 0 <= i < |inputs| ensures ids[inputs[i] - 2] == i {
      assert inputs[i] in inputs;
    }
    AssignedStart(feedId, ids, inputs, outputs, gates);
  }

  /** The state of the numbering after `k` gates. */
  ghost predicate NumberedTo(feedId: nat, p: (seq<nat>, nat), inputs: seq<nat>, outputs: seq<nat>, gates: seq<Gate>,
                             k: nat)
    requires |outputs| <= |gates| && WellNumbered(feedId, inputs, gates) && OutputsAreGates(outputs, gates)
  {
    && k <= |gates| && |p.0| + 2 == feedId && Assigned(feedId, p.0, inputs, outputs, gates, k, p.1)
    && p.1 == |inputs| + IntermediateCount(gates, outputs, k)
  }

  lemma NumberedNext(feedId: nat, p: (seq<nat>, nat), inputs: seq<nat>, outputs: seq<nat>, gates: seq<Gate>, k: nat,
                     r: (seq<nat>, nat))
    requires |outputs| <= |gates| && WellNumbered(feedId, inputs, gates) && OutputsAreGates(outputs, gates)
    requires NumberedTo(feedId, p, inputs, outputs, gates, k) && k < |gates| && r == NextIds(p.0, gates[k].z - 2, p.1)
    ensures NumberedTo(feedId, r, inputs, outputs, gates, k + 1)
  {
    FirstGateHasInput(feedId, inputs, gates);
    IntermediateRoom(gates, outputs, k);
    AssignStep(feedId, p.0, inputs, outputs, gates, k, p.1, gates[k].z - 2, r);
  }

  /** A property of numbering states that every gate keeps. */
  ghost predicate Kept(ok: ((seq<nat>, nat), nat) -> bool, gates: seq<Gate>, n: nat)
    requires GatesInRange(gates, n + 2)
  {
    forall p: (seq<nat>, nat), j: nat, r: (seq<nat>, nat), i: nat ::
      ok(p, j) && |p.0| == n && j < |gates| && i == j + 1 && r == NextIds(p.0, gates[j].z - 2, p.1) ==> ok(r, i)
  }

  lemma {:induction false} NumberedInduction(ids: seq<nat>, gates: seq<Gate>, start: nat,
                                             ok: ((seq<nat>, nat), nat) -> bool, k: nat)
    requires GatesInRange(gates, |ids| + 2) && k <= |gates| && ok((ids, start), 0) && Kept(ok, gates, |ids|)
    ensures ok(NumberedIds(ids, gates, start, k), k)
  {
    if k > 0 {
      NumberedInduction(ids, gates, start, ok, k - 1);
    }
  }

  ghost function NumberedState(feedId: nat, inputs: seq<nat>, outputs: seq<nat>,
                               gates: seq<Gate>): ((seq<nat>, nat), nat) -> bool
    requires |outputs| <= |gates| && WellNumbered(feedId, inputs, gates) && OutputsAreGates(outputs, gates)
  {
    (p: (seq<nat>, nat), k: nat) => NumberedTo(feedId, p, inputs, outputs, gates, k)
  }

  lemma StateNext(feedId: nat, inputs: seq<nat>, outputs: seq<nat>, gates: seq<Gate>,
                  ok: ((seq<nat>, nat), nat) -> bool,
                  p: (seq<nat>, nat), j: nat, r: (seq<nat>, nat), i: nat)
    requires |outputs| <= |gates| && WellNumbered(feedId, inputs, gates) && OutputsAreGates(outputs, gates)
    requires ok == NumberedState(feedId, inputs, outputs, gates) && ok(p, j) && j < |gates| && i == j + 1
    requires 2 <= gates[j].z < |p.0| + 2 && r == NextIds(p.0, gates[j].z - 2, p.1)
    ensures ok(r, i)
  {
    NumberedNext(feedId, p, inputs, outputs, gates, j, r);
  }

  lemma NumberedKept(feedId: nat, inputs: seq<nat>, outputs: seq<nat>, gates: seq<Gate>,
                     ok: ((seq<nat>, nat), nat) -> bool, n: nat)
    requires |outputs| <= |gates| && WellNumbered(feedId, inputs, gates) && OutputsAreGates(outputs, gates)
    requires ok == NumberedState(feedId, inputs, outputs, gates) && GatesInRange(gates, n + 2)
    ensures Kept(ok, gates, n)
  {
    forall p: (seq<nat>, nat), j: nat, r: (seq<nat>, nat), i: nat
      | ok(p, j) && |p.0| == n && j < |gates| && i == j + 1 && r == NextIds(p.0, gates[j].z - 2, p.1)
      ensures ok(r, i)
    {
      StateNext(feedId, inputs, outputs, gates, ok, p, j, r, i);
    }
  }

  lemma NumberedAssigned(feedId: nat, ids: seq<nat>, inputs: seq<nat>, outputs: seq<nat>, gates: seq<Gate>)
    requires |outputs| <= |gates| && WellNumbered(feedId, inputs, gates) && OutputsAreGates(outputs, gates)
    requires |ids| + 2 == feedId && Assigned(feedId, ids, inputs, outputs, gates, 0, |inputs|)
    ensures NumberedState(feedId, inputs, outputs, gates)(NumberedIds(ids, gates, |inputs|, |gates|), |gates|)
  {
    var ok := NumberedState(feedId, inputs, outputs, gates);
    NumberedKept(feedId, inputs, outputs, gates, ok, |ids|);
    NumberedInduction(ids, gates, |inputs|, ok, |gates|);
  }

  lemma GatesRenumber(feedId: nat, inputs: seq<nat>, outputs: seq<nat>, gates: seq<Gate>)
    requires WellNumbered(feedId, inputs, gates) && OutputsAreGates(outputs, gates)
    ensures OutputsInRange(outputs, feedId) && |outputs| <= feedId - 2
    ensures Renumbers(Lookup(FinalIds(feedId, inputs, outputs, gates)), feedId, inputs, outputs)
  {
    EndsAssigned(feedId, inputs, outputs, gates);
    var ids := EndIds(feedId, inputs, outputs);
    NumberedAssigned(feedId, ids, inputs, outputs, gates);
    var r := NumberedIds(ids, gates, |inputs|, |gates|);
    AssignedRenumbers(r.0, feedId, inputs, outputs, gates, r.1);
  }

  /** Outputs that are inputs already in place can be left out of the numbering. */
  lemma PlacedInputsSkipped(feedId: nat, inputs: seq<nat>, outputs: seq<nat>, gates: seq<Gate>, skip: nat)
    requires WellNumbered(feedId, inputs, gates) && OutputsInRange(outputs, feedId) && skip <= |outputs| <= feedId - 2
    requires forall j | 0 <= j < skip ::
        feedId - 2 - |outputs| + j < |inputs| && outputs[j] == inputs[feedId - 2 - |outputs| + j]
    ensures OutputsInRange(outputs[skip..], feedId)
    ensures FinalIds(feedId, inputs, outputs, gates) == FinalIds(feedId, inputs, outputs[skip..], gates)
  {
    var zeros, start := seq(feedId - 2, _ => 0), feedId - 2 - |outputs|;
    var first := PlacedIds(zeros, inputs, 0);
    forall j | 0 <= j < skip ensures first[outputs[j] - 2] == start + j {
      assert outputs[j] == inputs[start + j];
      PlacedAt(zeros, inputs, 0, start + j);
    }
    PlacedAgain(first, outputs, start, skip);
  }

  /** The numbering is one-to-one with every input and every output at its place exactly if every output has a place
      of its own. */
  lemma RenumbersIffPlaced(feedId: nat, inputs: seq<nat>, outputs: seq<nat>, gates: seq<Gate>)
    requires WellNumbered(feedId, inputs, gates) && OutputsInRange(outputs, feedId) && |outputs| <= feedId - 2
    ensures Renumbers(Lookup(FinalIds(feedId, inputs, outputs, gates)), feedId, inputs, outputs)
       <==> OutputsPlaced(outputs, inputs, gates)
  {
    var m := Lookup(FinalIds(feedId, inputs, outputs, gates));
    if Renumbers(m, feedId, inputs, outputs) {
      RenumberedPlaced(m, feedId, inputs, outputs, gates);
    }
    if OutputsPlaced(outputs, inputs, gates) {
      PlacedRenumber(feedId, inputs, outputs, gates);
    }
  }

  lemma RenumberedPlaced(m: nat -> nat, feedId: nat, inputs: seq<nat>, outputs: seq<nat>, gates: seq<Gate>)
    requires WellNumbered(feedId, inputs, gates) && OutputsInRange(outputs, feedId)
        && Renumbers(m, feedId, inputs, outputs)
    ensures OutputsPlaced(outputs, inputs, gates)
  {
    var n := |inputs| + |gates|;
    forall i, j | 0 <= i < j < |outputs| ensures outputs[i] != outputs[j] {
      assert m(outputs[i]) == n - |outputs| + i && m(outputs[j]) == n - |outputs| + j;
    }
    forall j | 0 <= j < |outputs|
      ensures if n - |outputs| + j < |inputs| then outputs[j] == inputs[n - |outputs| + j]
          else IsGateOutput(gates, outputs[j])
    {
      var p := n - |outputs| + j;
      assert m(outputs[j]) == p;
      if p < |inputs| {
        assert m(inputs[p]) == p;
      } else {
        forall i | 0 <= i < |inputs| ensures inputs[i] != outputs[j] {
          assert m(inputs[i]) == i;
        }
      }
    }
  }

  lemma PlacedRenumber(feedId: nat, inputs: seq<nat>, outputs: seq<nat>, gates: seq<Gate>)
    requires WellNumbered(feedId, inputs, gates) && OutputsPlaced(outputs, inputs, gates)
    ensures OutputsInRange(outputs, feedId) && |outputs| <= feedId - 2
    ensures Renumbers(Lookup(FinalIds(feedId, inputs, outputs, gates)), feedId, inputs, outputs)
  {
    PlacedInRange(outputs, feedId, inputs, gates);
    var skip := if |outputs| <= |gates| then 0 else |outputs| - |gates|;
    var rest, start := outputs[skip..], feedId - 2 - |outputs|;
    PlacedInputsSkipped(feedId, inputs, outputs, gates, skip);
    assert OutputsAreGates(rest, gates) by {
      forall j | 0 <= j < |rest| ensures IsGateOutput(gates, rest[j]) {
        assert rest[j] == outputs[skip + j] && start + skip + j >= |inputs|;
      }
    }
    GatesRenumber(feedId, inputs, rest, gates);
    var m := Lookup(FinalIds(feedId, inputs, rest, gates));
    forall j | 0 <= j < |outputs| ensures m(outputs[j]) == start + j {
      if j < skip {
        assert m(inputs[start + j]) == start + j;
      } else {
        assert m(rest[j - skip]) == start + j;
      }
    }
  }

  /** Two inversions of one input. */
  function TwoInversions(): seq<Gate> {
    [InvGate(2, 3), InvGate(3, 4)]
  }

  /** A repeated output loses its first place: the builder's second inversion, asked for twice, is the input `x` both
      times, but the circuit built returns the negation of `x` and `x`. */
  lemma RepeatedOutput(bits: seq<bool>)
    requires |bits| == 1
    ensures forall w: nat -> bool | MeetsInputs(w, TwoInversions(), [2], bits) ::
              ValuesOf(w, [4, 4]) == [bits[0], bits[0]]
    ensures var c := Rebuilt(Lookup(FinalIds(5, [2], [4, 4], TwoInversions())), 5, [2], [4, 4], TwoInversions(), 0);
            Yields(c, bits, [!bits[0], bits[0]]) && !Yields(c, bits, [bits[0], bits[0]])
  {
    var gates, m := TwoInversions(), Lookup([0, 1, 2]);
    forall w: nat -> bool | MeetsInputs(w, gates, [2], bits)
      ensures ValuesOf(w, [4, 4]) == [bits[0], bits[0]]
    {
      assert Satisfies(gates[0], w) && Satisfies(gates[1], w) && w([2][0]) == bits[0];
    }
    RepeatedIds();
    var c := Rebuilt(m, 5, [2], [4, 4], gates, 0);
    assert c.gates == [InvGate(0, 1), InvGate(1, 2)];
    forall w: nat -> bool | c.Solves(bits, w) ensures c.OutputsOf(w) == [!bits[0], bits[0]] {
      assert w(0) == bits[0] && Satisfies(c.gates[0], w) && Satisfies(c.gates[1], w);
    }
    var w := (v: nat) => if v == 1 then !bits[0] else bits[0];
    assert c.Solves(bits, w);
  }

  lemma RepeatedIds()
    ensures FinalIds(5, [2], [4, 4], TwoInversions()) == [0, 1, 2]
  {
    var gates := TwoInversions();
    var zeros := seq(3, _ => 0);
    assert zeros == [0, 0, 0];
    assert [2][..0] == [] && PlacedIds(zeros, [2], 0) == [0, 0, 0];
    assert [4, 4][..1] == [4] && [4][..0] == [];
    assert PlacedIds([0, 0, 0], [4], 1) == [0, 0, 1];
    assert PlacedIds([0, 0, 0], [4, 4], 1) == [0, 0, 2];
    assert [0, 0, 2][1 := 1] == [0, 1, 2];
    assert NumberedIds([0, 0, 2], gates, 1, 1) == ([0, 1, 2], 2);
    assert NumberedIds([0, 0, 2], gates, 1, 2) == ([0, 1, 2], 2);
  }

  /** The first gate reads an input, so wire 0 is never a gate output. */
  lemma FirstGateHasInput(feedId: nat, inputs: seq<nat>, gates: seq<Gate>)
    requires WellNumbered(feedId, inputs, gates)
    ensures gates != [] ==> inputs != []
  {
    if gates != [] {
      var v := gates[0].x;
      assert Reads(gates[0], v);
      forall k | 0 <= k < |gates| ensures gates[k].z != v {
      }
      assert v in inputs || IsGateOutput(gates, v);
    }
  }

  ghost function Elements(s: seq<nat>): set<nat> {
    set i | 0 <= i < |s| :: s[i]
  }

  ghost function Written(gates: seq<Gate>): seq<nat> {
    seq(|gates|, k requires 0 <= k < |gates| => gates[k].z)
  }

  lemma {:induction false} DistinctSize(s: seq<nat>)
    requires forall i, j | 0 <= i < j < |s| :: s[i] != s[j]
    ensures |Elements(s)| == |s|
  {
    if s != [] {
      var n := |s| - 1;
      DistinctSize(s[..n]);
      assert Elements(s) == Elements(s[..n]) + {s[n]};
    }
  }

  lemma SubsetSize(a: set<nat>, b: set<nat>)
    requires a <= b
    ensures |a| <= |b| && |b - a| == |b| - |a|
  {
    assert b == a + (b - a);
  }

  /** There are as many intermediates as gates that are not outputs. */
  lemma OutputCount(outputs: seq<nat>, gates: seq<Gate>)
    requires OutputsAreGates(outputs, gates) && forall j, k | 0 <= j < k < |gates| :: gates[j].z < gates[k].z
    ensures |outputs| <= |gates|
    ensures |Intermediates(gates, outputs)| == |gates| - |outputs|
  {
    var w, o := Elements(Written(gates)), Elements(outputs);
    DistinctSize(Written(gates));
    DistinctSize(outputs);
    forall j | 0 <= j < |outputs| ensures outputs[j] in w {
      var k :| 0 <= k < |gates| && gates[k].z == outputs[j];
      assert Written(gates)[k] == outputs[j];
    }
    SubsetSize(o, w);
    IntermediatesAre(outputs, gates);
  }

  lemma IntermediatesAre(outputs: seq<nat>, gates: seq<Gate>)
    ensures Intermediates(gates, outputs) == Elements(Written(gates)) - Elements(outputs)
  {
    forall v | v in Elements(Written(gates)) && v !in Elements(outputs) ensures v in Intermediates(gates, outputs) {
      var k :| 0 <= k < |Written(gates)| && Written(gates)[k] == v;
      assert gates[k].z == v;
    }
    forall v | v in Intermediates(gates, outputs) ensures v in Elements(Written(gates)) && v !in Elements(outputs) {
      var k :| 0 <= k < |gates| && gates[k].z == v && v !in outputs;
      assert Written(gates)[k] == v;
    }
  }

  lemma IntermediatesStep(outputs: seq<nat>, gates: seq<Gate>, k: nat)
    requires OutputsAreGates(outputs, gates) && forall i, j | 0 <= i < j < |gates| :: gates[i].z < gates[j].z
    requires k < |gates|
    ensures |Intermediates(gates[..k + 1], outputs)|
         == |Intermediates(gates[..k], outputs)| + if gates[k].z in outputs then 0 else 1
    ensures |Intermediates(gates[..k + 1], outputs)| <= |gates| - |outputs|
  {
    var before, after := Intermediates(gates[..k], outputs), Intermediates(gates[..k + 1], outputs);
    var z := gates[k].z;
    assert z !in before;
    forall v | v in after && v != z ensures v in before {
      var j :| 0 <= j < k + 1 && gates[..k + 1][j].z == v && v !in outputs;
      assert gates[..k][j].z == v;
    }
    forall v | v in before ensures v in after {
      var j :| 0 <= j < k && gates[..k][j].z == v && v !in outputs;
      assert gates[..k + 1][j].z == v;
    }
    if z !in outputs {
      assert gates[..k + 1][k].z == z;
      assert after == before + {z};
    } else {
      assert after == before;
    }
    forall v | v in after ensures v in Intermediates(gates, outputs) {
      var j :| 0 <= j < k + 1 && gates[..k + 1][j].z == v && v !in outputs;
      assert gates[j].z == v;
    }
    SubsetSize(after, Intermediates(gates, outputs));
    OutputCount(outputs, gates);
  }

  /** How many of the first `k` gate outputs are not circuit outputs. */
  function IntermediateCount(gates: seq<Gate>, outputs: seq<nat>, k: nat): nat
    requires k <= |gates|
  {
    if k == 0 then 0 else IntermediateCount(gates, outputs, k - 1) + if gates[k - 1].z in outputs then 0 else 1
  }

  lemma {:induction false} IntermediatesCounted(gates: seq<Gate>, outputs: seq<nat>, k: nat)
    requires OutputsAreGates(outputs, gates) && forall i, j | 0 <= i < j < |gates| :: gates[i].z < gates[j].z
    requires k <= |gates|
    ensures IntermediateCount(gates, outputs, k) == |Intermediates(gates[..k], outputs)|
  {
    if k == 0 {
      assert Intermediates(gates[..0], outputs) == {};
    } else {
      IntermediatesCounted(gates, outputs, k - 1);
      IntermediatesStep(outputs, gates, k - 1);
    }
  }

  /** There is an id left for the next intermediate. */
  lemma IntermediateRoom(gates: seq<Gate>, outputs: seq<nat>, k: nat)
    requires OutputsAreGates(outputs, gates) && forall i, j | 0 <= i < j < |gates| :: gates[i].z < gates[j].z
    requires k < |gates|
    ensures IntermediateCount(gates, outputs, k) + (if gates[k].z in outputs then 0 else 1) <= |gates| - |outputs|
  {
    IntermediatesCounted(gates, outputs, k);
    IntermediatesStep(outputs, gates, k);
  }

  lemma OutputsNotInputs(feedId: nat, inputs: seq<nat>, outputs: seq<nat>, gates: seq<Gate>)
    requires WellNumbered(feedId, inputs, gates) && OutputsAreGates(outputs, gates)
    ensures forall j | 0 <= j < |outputs| :: 2 <= outputs[j] < feedId && outputs[j] !in inputs
  {
    forall j | 0 <= j < |outputs| ensures 2 <= outputs[j] < feedId && outputs[j] !in inputs {
      var k :| 0 <= k < |gates| && gates[k].z == outputs[j];
    }
  }

  /** Ids 2 to `feedId` are shared out between the inputs and the gate outputs, in order of creation. */
  ghost predicate WellNumbered(feedId: nat, inputs: seq<nat>, gates: seq<Gate>) {
    && feedId == 2 + |inputs| + |gates|
    && (forall i | 0 <= i < |inputs| :: 2 <= inputs[i] < feedId)
    && (forall i, j | 0 <= i < j < |inputs| :: inputs[i] < inputs[j])
    && (forall k | 0 <= k < |gates| :: 2 <= gates[k].z < feedId && gates[k].z !in inputs)
    && (forall j, k | 0 <= j < k < |gates| :: gates[j].z < gates[k].z)
    && (forall k, v: nat | 0 <= k < |gates| && Reads(gates[k], v) :: 2 <= v < gates[k].z)
    && (forall v | 2 <= v < feedId :: v in inputs || IsGateOutput(gates, v))
  }

  lemma AppendNumbered(feedId: nat, inputs: seq<nat>, gates: seq<Gate>, g: Gate)
    requires WellNumbered(feedId, inputs, gates)
    requires g.z == feedId && forall v: nat :: Reads(g, v) ==> 2 <= v < feedId
    ensures WellNumbered(feedId + 1, inputs, gates + [g])
  {
    var gates' := gates + [g];
    forall v | 2 <= v < feedId + 1
      ensures v in inputs || IsGateOutput(gates', v)
    {
      if v == feedId {
        assert gates'[|gates|].z == v;
      } else if v !in inputs {
        var k :| 0 <= k < |gates| && gates[k].z == v;
        assert gates'[k].z == v;
      }
    }
  }

  /** For every input assignment there is a model: folded gates never contradict one another. */
  lemma {:induction false} ModelExists(feedId: nat, inputs: seq<nat>, gates: seq<Gate>, bits: seq<bool>, k: nat)
    returns (w: nat -> bool)
    requires WellNumbered(feedId, inputs, gates) && |bits| == |inputs| && k <= |gates|
    ensures Models(w, gates[..k])
    ensures forall i | 0 <= i < |inputs| :: w(inputs[i]) == bits[i]
  {
    if k == 0 {
      w := (v: nat) => v == 1 || exists i :: 0 <= i < |inputs| && inputs[i] == v && bits[i];
      forall i | 0 <= i < |inputs| ensures w(inputs[i]) == bits[i] {
        assert inputs[i] >= 2;
      }
    } else {
      var u := ModelExists(feedId, inputs, gates, bits, k - 1);
      var g := gates[k - 1];
      w := (v: nat) => if v == g.z then GateValue(g, u) else u(v);
      assert gates[..k][..k - 1] == gates[..k - 1];
      forall j | 0 <= j < k ensures Satisfies(gates[..k][j], w) {
        forall v: nat | Reads(gates[j], v) ensures w(v) == u(v) {
          assert v < gates[j].z;
        }
        assert j < k - 1 ==> gates[..k - 1][j] == gates[j];
        assert GateValue(gates[j], w) == GateValue(gates[j], u);
      }
      forall i | 0 <= i < |inputs| ensures w(inputs[i]) == bits[i] {
        assert inputs[i] != g.z;
      }
    }
  }

  // Renumbering.

  function Renamed(g: Gate, m: nat -> nat): Gate {
    match g
    case XorGate(x, y, z) => XorGate(m(x), m(y), m(z))
    case AndGate(x, y, z) => AndGate(m(x), m(y), m(z))
    case InvGate(x, z) => InvGate(m(x), m(z))
    case IdGate(x, z) => IdGate(m(x), m(z))
  }

  /** `m` maps the builder's ids one-to-one onto wires: inputs first, outputs last, both in order. */
  ghost predicate Renumbers(m: nat -> nat, feedId: nat, inputs: seq<nat>, outputs: seq<nat>) {
    var n := feedId - 2;
    && |outputs| <= n
    && (forall v: nat | 2 <= v < feedId :: m(v) < n)
    && (forall u: nat, v: nat | 2 <= u < feedId && 2 <= v < feedId && m(u) == m(v) :: u == v)
    && (forall i | 0 <= i < |inputs| :: m(inputs[i]) == i)
    && (forall j | 0 <= j < |outputs| :: m(outputs[j]) == n - |outputs| + j)
  }

  function Rebuilt(m: nat -> nat, feedId: nat, inputs: seq<nat>, outputs: seq<nat>, gates: seq<Gate>,
                   xors: nat): Circuit
    requires feedId >= 2
  {
    Circuit(|inputs|, |outputs|, seq(|gates|, k requires 0 <= k < |gates| => Renamed(gates[k], m)), feedId - 2,
            AndCount(gates), xors)
  }

  lemma {:induction false} RenamedAndCount(gates: seq<Gate>, gates': seq<Gate>, m: nat -> nat)
    requires |gates'| == |gates| && forall k | 0 <= k < |gates| :: gates'[k] == Renamed(gates[k], m)
    ensures AndCount(gates') == AndCount(gates)
  {
    if gates != [] {
      RenamedAndCount(gates[..|gates| - 1], gates'[..|gates| - 1], m);
    }
  }

  lemma RenamedReads(g: Gate, m: nat -> nat, u: nat)
    requires Reads(Renamed(g, m), u)
    ensures exists v: nat :: Reads(g, v) && m(v) == u
  {
    assert Reads(g, g.x);
    if m(g.x) != u {
      assert Reads(g, g.y);
    }
  }

  lemma RebuiltDefined(c: Circuit, m: nat -> nat, feedId: nat, inputs: seq<nat>, outputs: seq<nat>, gates: seq<Gate>,
                       v: nat, k: nat)
    requires WellNumbered(feedId, inputs, gates) && Renumbers(m, feedId, inputs, outputs)
    requires c == Rebuilt(m, feedId, inputs, outputs, gates, c.xorCount)
    requires 2 <= v < feedId && k <= |gates|
    ensures c.Defined(m(v), k) <==> v in inputs || exists j :: 0 <= j < k && gates[j].z == v
  {
    if v in inputs {
      var i :| 0 <= i < |inputs| && inputs[i] == v;
      assert m(inputs[i]) == i;
    }
    if j :| 0 <= j < k && gates[j].z == v {
      assert c.gates[j].z == m(v);
    }
    if c.Defined(m(v), k) {
      if m(v) < |inputs| {
        assert m(inputs[m(v)]) == m(v);
      } else {
        var j :| 0 <= j < k && c.gates[j].z == m(v);
        assert m(gates[j].z) == m(v);
      }
    }
  }

  lemma RebuiltRead(c: Circuit, m: nat -> nat, feedId: nat, inputs: seq<nat>, outputs: seq<nat>, gates: seq<Gate>,
                    k: nat, u: nat)
    requires WellNumbered(feedId, inputs, gates) && Renumbers(m, feedId, inputs, outputs)
    requires c == Rebuilt(m, feedId, inputs, outputs, gates, c.xorCount)
    requires k < |gates| && Reads(c.gates[k], u)
    ensures u < c.feedCount && c.Defined(u, k)
  {
    RenamedReads(gates[k], m, u);
    var v: nat :| Reads(gates[k], v) && m(v) == u;
    RebuiltDefined(c, m, feedId, inputs, outputs, gates, v, k);
    if v !in inputs {
      var j :| 0 <= j < |gates| && gates[j].z == v;
      assert j < k;
    }
  }

  lemma RebuiltWrite(c: Circuit, m: nat -> nat, feedId: nat, inputs: seq<nat>, outputs: seq<nat>, gates: seq<Gate>,
                     k: nat)
    requires WellNumbered(feedId, inputs, gates) && Renumbers(m, feedId, inputs, outputs)
    requires c == Rebuilt(m, feedId, inputs, outputs, gates, c.xorCount)
    requires k < |gates|
    ensures c.gates[k].z < c.feedCount && !c.Defined(c.gates[k].z, k)
  {
    RebuiltDefined(c, m, feedId, inputs, outputs, gates, gates[k].z, k);
  }

  lemma RebuiltOutput(c: Circuit, m: nat -> nat, feedId: nat, inputs: seq<nat>, outputs: seq<nat>, gates: seq<Gate>,
                      j: nat)
    requires Renumbers(m, feedId, inputs, outputs) && OutputsPlaced(outputs, inputs, gates)
        && feedId == 2 + |inputs| + |gates|
    requires c == Rebuilt(m, feedId, inputs, outputs, gates, c.xorCount)
    requires j < |outputs|
    ensures c.Defined(c.feedCount - c.outputs + j, |c.gates|)
  {
    var p := c.feedCount - c.outputs + j;
    assert m(outputs[j]) == p;
    if p >= |inputs| {
      var k :| 0 <= k < |gates| && gates[k].z == outputs[j];
      assert c.gates[k].z == p;
    }
  }

  /** The renumbered gates are in topological, single-assignment order. */
  lemma RebuiltWellFormed(c: Circuit, m: nat -> nat, feedId: nat, inputs: seq<nat>, outputs: seq<nat>, gates: seq<Gate>)
    requires WellNumbered(feedId, inputs, gates) && Renumbers(m, feedId, inputs, outputs)
    requires OutputsPlaced(outputs, inputs, gates)
    requires c == Rebuilt(m, feedId, inputs, outputs, gates, c.xorCount)
    ensures c.WellFormed()
  {
    assert AndCount(c.gates) == AndCount(gates) by {
      RenamedAndCount(gates, c.gates, m);
    }
    forall k | 0 <= k < |gates|
      ensures c.gates[k].z < c.feedCount && !c.Defined(c.gates[k].z, k)
    {
      RebuiltWrite(c, m, feedId, inputs, outputs, gates, k);
    }
    forall k, u: nat | 0 <= k < |gates| && Reads(c.gates[k], u)
      ensures u < c.feedCount && c.Defined(u, k)
    {
      RebuiltRead(c, m, feedId, inputs, outputs, gates, k, u);
    }
    forall v | c.feedCount - c.outputs <= v < c.feedCount
      ensures c.Defined(v, |c.gates|)
    {
      RebuiltOutput(c, m, feedId, inputs, outputs, gates, v - (c.feedCount - c.outputs));
    }
  }

  /** A gate is met by a valuation carried along the renumbering. */
  lemma CarriedGate(g: Gate, m: nat -> nat, w: nat -> bool, w': nat -> bool)
    requires Satisfies(g, w) && w'(m(g.z)) == w(g.z) && forall v: nat | Reads(g, v) :: w'(m(v)) == w(v)
    ensures Satisfies(Renamed(g, m), w')
  {
    assert Reads(g, g.x) && (g.XorGate? || g.AndGate? ==> Reads(g, g.y));
  }

  lemma CarriedSolves(c: Circuit, m: nat -> nat, feedId: nat, inputs: seq<nat>, outputs: seq<nat>, gates: seq<Gate>,
                      w: nat -> bool, w': nat -> bool, bits: seq<bool>)
    requires WellNumbered(feedId, inputs, gates) && Renumbers(m, feedId, inputs, outputs)
        && OutputsInRange(outputs, feedId)
    requires c == Rebuilt(m, feedId, inputs, outputs, gates, c.xorCount) && MeetsInputs(w, gates, inputs, bits)
    requires forall v: nat | 2 <= v < feedId :: w'(m(v)) == w(v)
    ensures |bits| >= c.inputs && c.Solves(bits, w') && c.OutputsOf(w') == ValuesOf(w, outputs)
  {
    forall k | 0 <= k < |c.gates| ensures Satisfies(c.gates[k], w') {
      CarriedGate(gates[k], m, w, w');
    }
    forall i: nat | i < c.inputs ensures w'(i) == bits[i] {
      assert m(inputs[i]) == i;
    }
    forall j | 0 <= j < |outputs| ensures c.OutputsOf(w')[j] == w(outputs[j]) {
      assert m(outputs[j]) == c.feedCount - c.outputs + j;
    }
  }

  /** A model of the builder's gates, carried along the renumbering, solves the built circuit. */
  lemma RebuiltSolved(c: Circuit, m: nat -> nat, feedId: nat, inputs: seq<nat>, outputs: seq<nat>, gates: seq<Gate>,
                      w: nat -> bool, bits: seq<bool>)
    requires WellNumbered(feedId, inputs, gates) && Renumbers(m, feedId, inputs, outputs)
        && OutputsInRange(outputs, feedId)
    requires c == Rebuilt(m, feedId, inputs, outputs, gates, c.xorCount)
    requires MeetsInputs(w, gates, inputs, bits)
    ensures Yields(c, bits, ValuesOf(w, outputs))
  {
    var w' := (u: nat) => exists v: nat :: 2 <= v < feedId && m(v) == u && w(v);
    CarriedSolves(c, m, feedId, inputs, outputs, gates, w, w', bits);
  }

  /** With every output in place, the renumbered circuit is well formed and keeps the builder's meaning. */
  lemma RebuiltCorrect(c: Circuit, feedId: nat, inputs: seq<nat>, outputs: seq<nat>, gates: seq<Gate>)
    requires WellNumbered(feedId, inputs, gates) && OutputsPlaced(outputs, inputs, gates)
    requires OutputsInRange(outputs, feedId) && |outputs| <= feedId - 2
    requires c == Rebuilt(Lookup(FinalIds(feedId, inputs, outputs, gates)), feedId, inputs, outputs, gates, c.xorCount)
    ensures c.WellFormed()
    ensures forall w: nat -> bool, bits: seq<bool> :: MeetsInputs(w, gates, inputs, bits)
                                                      ==> Yields(c, bits, ValuesOf(w, outputs))
  {
    var m := Lookup(FinalIds(feedId, inputs, outputs, gates));
    PlacedRenumber(feedId, inputs, outputs, gates);
    RebuiltWellFormed(c, m, feedId, inputs, outputs, gates);
    forall w: nat -> bool, bits: seq<bool> | MeetsInputs(w, gates, inputs, bits)
      ensures Yields(c, bits, ValuesOf(w, outputs))
    {
      RebuiltSolved(c, m, feedId, inputs, outputs, gates, w, bits);
    }
  }
}
