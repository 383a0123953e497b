/** Binary circuits: gates over numbered wires, and their evaluation. */
module Circuits {
  import opened Results

  datatype Gate =
    | XorGate(x: nat, y: nat, z: nat)
    | AndGate(x: nat, y: nat, z: nat)
    | InvGate(x: nat, z: nat)
    | IdGate(x: nat, z: nat)

  /** `w` gives the gate's output wire the value the gate computes from its input wires. */
  predicate Satisfies(g: Gate, w: nat -> bool) {
    w(g.z) == GateValue(g, w)
  }

  function GateValue(g: Gate, w: nat -> bool): bool {
    match g
    case XorGate(x, y, _) => w(x) != w(y)
    case AndGate(x, y, _) => w(x) && w(y)
    case InvGate(x, _) => !w(x)
    case IdGate(x, _) => w(x)
  }

  /** `v` is an input wire of the gate. */
  predicate Reads(g: Gate, v: nat) {
    g.x == v || ((g.XorGate? || g.AndGate?) && g.y == v)
  }

  function AndCount(gates: seq<Gate>): nat {
    if gates == [] then 0
    else AndCount(gates[..|gates| - 1]) + if gates[|gates| - 1].AndGate? then 1 else 0
  }

  lemma AndCountStep(gates: seq<Gate>, k: nat)
    requires k < |gates|
    ensures AndCount(gates[..k + 1]) == AndCount(gates[..k]) + if gates[k].AndGate? then 1 else 0
  {
    assert gates[..k + 1][..k] == gates[..k];
  }

  lemma {:induction false} AndCountMonotone(gates: seq<Gate>, j: nat, k: nat)
    requires j <= k <= |gates|
    ensures AndCount(gates[..j]) <= AndCount(gates[..k])
    decreases k
  {
    if j < k {
      AndCountMonotone(gates, j, k - 1);
      AndCountStep(gates, k - 1);
    }
  }

  /** Inputs are wires `0..inputs`, outputs the last `outputs` wires. */
  datatype Circuit = Circuit(inputs: nat, outputs: nat, gates: seq<Gate>, feedCount: nat, andCount: nat, xorCount: nat)
  {
    /** Wire `v` is an input or the output of one of the first `k` gates. */
    ghost predicate Defined(v: nat, k: nat)
      requires k <= |gates|
    {
      v < inputs || exists j :: 0 <= j < k && gates[j].z == v
    }

    ghost predicate InBounds() {
      && inputs <= feedCount && outputs <= feedCount
      && forall k | 0 <= k < |gates| :: gates[k].z < feedCount && forall v: nat :: Reads(gates[k], v) ==> v < feedCount
    }

    /** Gates read only wires defined before them and write each wire at most once. */
    ghost predicate WellFormed() {
      && InBounds()
      && (forall k | 0 <= k < |gates| ::
            !Defined(gates[k].z, k) && forall v: nat :: Reads(gates[k], v) ==> Defined(v, k))
      && (forall v | feedCount - outputs <= v < feedCount :: Defined(v, |gates|))
      && andCount == AndCount(gates)
    }

    /** `w` extends the input bits and meets every gate equation: the circuit's meaning, without an order. */
    ghost predicate Solves(input: seq<bool>, w: nat -> bool)
      requires |input| >= inputs
    {
      && (forall i: nat | i < inputs :: w(i) == input[i])
      && (forall k | 0 <= k < |gates| :: Satisfies(gates[k], w))
    }

    function OutputsOf(w: nat -> bool): seq<bool>
      requires outputs <= feedCount
    {
      seq(outputs, j requires 0 <= j < outputs => w(feedCount - outputs + j))
    }
  }

  /** A wire buffer as a valuation; wires outside it are false. */
  function Val(w: seq<bool>): nat -> bool {
    (v: nat) => v < |w| && w[v]
  }

  function Step(g: Gate, w: seq<bool>): seq<bool>
    requires g.z < |w|
  {
    w[g.z := GateValue(g, Val(w))]
  }

  /** The wires after running the gates in order. */
  function Run(gates: seq<Gate>, w: seq<bool>): (r: seq<bool>)
    requires forall k | 0 <= k < |gates| :: gates[k].z < |w|
    ensures |r| == |w|
  {
    if gates == [] then w
    else Step(gates[|gates| - 1], Run(gates[..|gates| - 1], w))
  }

  /** A gate's value depends only on the wires it reads. */
  lemma GateValueAgrees(g: Gate, w: nat -> bool, w': nat -> bool)
    requires forall v: nat | Reads(g, v) :: w(v) == w'(v)
    ensures GateValue(g, w) == GateValue(g, w')
  {
    assert Reads(g, g.x) && (g.XorGate? || g.AndGate? ==> Reads(g, g.y));
  }

  lemma StepWrites(g: Gate, before: seq<bool>, v: nat)
    requires g.z < |before|
    ensures Val(Step(g, before))(v) == if v == g.z then GateValue(g, Val(before)) else Val(before)(v)
  {
  }

  lemma RunLast(c: Circuit, w: seq<bool>, k: nat)
    requires c.InBounds() && |w| == c.feedCount && k < |c.gates|
    ensures c.gates[k].z < |w| && Run(c.gates[..k + 1], w) == Step(c.gates[k], Run(c.gates[..k], w))
  {
    assert c.gates[..k + 1][..k] == c.gates[..k];
  }

  /** Gate `j` is met by wires that agree with wires meeting it, except on a wire written later. */
  lemma StillSatisfied(c: Circuit, w: nat -> bool, w': nat -> bool, j: nat, k: nat)
    requires c.WellFormed() && j < k < |c.gates| && Satisfies(c.gates[j], w)
    requires forall v: nat | v != c.gates[k].z :: w'(v) == w(v)
    ensures Satisfies(c.gates[j], w')
  {
    assert !c.Defined(c.gates[k].z, k);
    forall v: nat | Reads(c.gates[j], v) ensures w(v) == w'(v) {
      assert c.Defined(v, j);
    }
    GateValueAgrees(c.gates[j], w, w');
  }

  /** A gate does not read the wire it writes. */
  lemma NewlySatisfied(c: Circuit, w: nat -> bool, w': nat -> bool, k: nat)
    requires c.WellFormed() && k < |c.gates|
    requires forall v: nat :: w'(v) == if v == c.gates[k].z then GateValue(c.gates[k], w) else w(v)
    ensures Satisfies(c.gates[k], w')
  {
    forall v: nat | Reads(c.gates[k], v) ensures w(v) == w'(v) {
      assert c.Defined(v, k) && !c.Defined(c.gates[k].z, k);
    }
    GateValueAgrees(c.gates[k], w, w');
  }

  /** One more gate of a run. */
  lemma StepSatisfies(c: Circuit, w: nat -> bool, w': nat -> bool, k: nat)
    requires c.WellFormed() && k < |c.gates|
    requires forall v: nat :: w'(v) == if v == c.gates[k].z then GateValue(c.gates[k], w) else w(v)
    requires forall j | 0 <= j < k :: Satisfies(c.gates[j], w)
    ensures forall j | 0 <= j < k + 1 :: Satisfies(c.gates[j], w')
    ensures forall v: nat | v < c.inputs :: w'(v) == w(v)
  {
    forall j | 0 <= j < k + 1 ensures Satisfies(c.gates[j], w') {
      if j < k {
        StillSatisfied(c, w, w', j, k);
      } else {
        NewlySatisfied(c, w, w', k);
      }
    }
    assert !c.Defined(c.gates[k].z, k);
  }

  /** After a run of a well-formed circuit every gate equation holds, and the inputs are untouched. */
  lemma {:induction false} RunSatisfies(c: Circuit, w: seq<bool>, k: nat)
    requires c.WellFormed() && |w| == c.feedCount && k <= |c.gates|
    ensures forall j | 0 <= j < k :: Satisfies(c.gates[j], Val(Run(c.gates[..k], w)))
    ensures forall v: nat | v < c.inputs :: Val(Run(c.gates[..k], w))(v) == Val(w)(v)
  {
    if k > 0 {
      var before := Run(c.gates[..k - 1], w);
      RunLast(c, w, k - 1);
      RunSatisfies(c, w, k - 1);
      forall v: nat
        ensures Val(Step(c.gates[k - 1], before))(v)
             == if v == c.gates[k - 1].z then GateValue(c.gates[k - 1], Val(before)) else Val(before)(v)
      {
        StepWrites(c.gates[k - 1], before, v);
      }
      StepSatisfies(c, Val(before), Val(Step(c.gates[k - 1], before)), k - 1);
    }
  }

  /** The gate equations and the inputs determine every defined wire. */
  lemma {:induction false} SatisfiesUnique(c: Circuit, w: nat -> bool, w': nat -> bool, k: nat, v: nat)
    requires c.WellFormed() && k <= |c.gates| && c.Defined(v, k)
    requires forall j | 0 <= j < k :: Satisfies(c.gates[j], w) && Satisfies(c.gates[j], w')
    requires forall i: nat | i < c.inputs :: w(i) == w'(i)
    ensures w(v) == w'(v)
  {
    if v >= c.inputs {
      var j :| 0 <= j < k && c.gates[j].z == v;
      forall u: nat | Reads(c.gates[j], u)
        ensures w(u) == w'(u)
      {
        SatisfiesUnique(c, w, w', j, u);
      }
    }
  }

  datatype CircuitError =
    | InvalidWireCount(expected: nat, actual: nat)
    | InvalidInputLength(expected: nat, actual: nat)

  /** Computes one gate in place. */
  method ApplyGate(g: Gate, wires: array<bool>)
    requires g.z < wires.Length && forall v: nat :: Reads(g, v) ==> v < wires.Length
    modifies wires
    ensures wires[..] == Step(g, old(wires[..]))
  {
    assert Reads(g, g.x);
    ghost var before := wires[..];
    match g
    case XorGate(x, y, z) => assert Reads(g, y); wires[z] := wires[x] != wires[y];
    case AndGate(x, y, z) => assert Reads(g, y); wires[z] := wires[x] && wires[y];
    case InvGate(x, z) => wires[z] := !wires[x];
    case IdGate(x, z) => wires[z] := wires[x];
    assert wires[..] == Step(g, before);
  }

  /** Evaluates the gates in place. */
  method EvaluateRaw(c: Circuit, wires: array<bool>) returns (r: Result<(), CircuitError>)
    requires c.InBounds()
    modifies wires
    ensures wires.Length != c.feedCount
        ==> r == Err(InvalidWireCount(c.feedCount, wires.Length)) && wires[..] == old(wires[..])
    ensures wires.Length == c.feedCount ==> r == Ok(()) && wires[..] == Run(c.gates, old(wires[..]))
  {
    if wires.Length != c.feedCount {
      return Err(InvalidWireCount(c.feedCount, wires.Length));
    }
    ghost var start := wires[..];
    for i := 0 to |c.gates|
      invariant wires[..] == Run(c.gates[..i], start)
    {
      RunLast(c, start, i);
      ApplyGate(c.gates[i], wires);
    }
    assert c.gates[..|c.gates|] == c.gates;
    return Ok(());
  }

  lemma SolutionsAgree(c: Circuit, input: seq<bool>, w: nat -> bool, w': nat -> bool)
    requires c.WellFormed() && |input| >= c.inputs && c.Solves(input, w) && c.Solves(input, w')
    ensures c.OutputsOf(w) == c.OutputsOf(w')
  {
    forall j | 0 <= j < c.outputs
      ensures c.OutputsOf(w)[j] == c.OutputsOf(w')[j]
    {
      SatisfiesUnique(c, w, w', |c.gates|, c.feedCount - c.outputs + j);
    }
  }

  /** Evaluating the gates in order from the inputs solves the circuit, and the outputs are unique. */
  lemma RunSolves(c: Circuit, input: seq<bool>, start: seq<bool>)
    requires c.WellFormed() && |start| == c.feedCount && |input| >= c.inputs
    requires forall i | 0 <= i < c.inputs :: start[i] == input[i]
    ensures c.Solves(input, Val(Run(c.gates, start)))
    ensures forall w: nat -> bool :: c.Solves(input, w) ==> c.OutputsOf(w) == c.OutputsOf(Val(Run(c.gates, start)))
  {
    assert c.gates[..|c.gates|] == c.gates;
    RunSatisfies(c, start, |c.gates|);
    var final := Val(Run(c.gates, start));
    forall w: nat -> bool | c.Solves(input, w)
      ensures c.OutputsOf(w) == c.OutputsOf(final)
    {
      SolutionsAgree(c, input, w, final);
    }
  }

  /** The outputs of a well-formed circuit are those of any valuation that solves it. */
  method Evaluate(c: Circuit, input: seq<bool>) returns (r: Result<seq<bool>, CircuitError>)
    requires c.WellFormed()
    ensures |input| < c.inputs ==> r == Err(InvalidInputLength(c.inputs, |input|))
    ensures |input| >= c.inputs ==> r.Ok? && forall w: nat -> bool :: c.Solves(input, w) ==> r.value == c.OutputsOf(w)
    ensures |input| >= c.inputs ==> exists w: nat -> bool :: c.Solves(input, w)
  {
    var feeds := new bool[c.feedCount](_ => false);
    var i := 0;
    while i < c.inputs
      invariant i <= c.inputs && i <= |input|
      invariant forall j | 0 <= j < i :: feeds[j] == input[j]
    {
      if i >= |input| {
        return Err(InvalidInputLength(c.inputs, i));
      }
      feeds[i] := input[i];
      i := i + 1;
    }
    ghost var start := feeds[..];
    var _ := EvaluateRaw(c, feeds);
    RunSolves(c, input, start);
    r := Ok(feeds[c.feedCount - c.outputs..]);
    assert r.value == c.OutputsOf(Val(feeds[..]));
  }

  // Walking a gate list with per-AND-gate items.

  /** The gate writes and reads only wires below `n`. */
  predicate GateFits(g: Gate, n: nat) {
    g.z < n && g.x < n && (g.XorGate? || g.AndGate? ==> g.y < n)
  }

  predicate Fits(gates: seq<Gate>, n: nat) {
    forall k | 0 <= k < |gates| :: GateFits(gates[k], n)
  }

  /** The item for the last of the gates when each AND gate takes the next of `items`. */
  function LastItem<T>(gates: seq<Gate>, items: seq<T>, default: T): T
    requires gates != []
  {
    var i := AndCount(gates[..|gates| - 1]);
    if i < |items| then items[i] else default
  }

  lemma LastGate(gates: seq<Gate>, k: nat)
    requires 0 < k <= |gates|
    ensures gates[..k][..k - 1] == gates[..k - 1] && |gates[..k]| == k && gates[..k][k - 1] == gates[k - 1]
  {
  }

  lemma FitsPrefix(c: Circuit, k: nat, n: nat)
    requires c.WellFormed() && k <= |c.gates| && c.feedCount <= n
    ensures Fits(c.gates[..k], n)
    ensures k < |c.gates| ==> GateFits(c.gates[k], n)
  {
    forall j | 0 <= j < |c.gates| ensures GateFits(c.gates[j], n) {
      var g := c.gates[j];
      assert Reads(g, g.x) && (g.XorGate? || g.AndGate? ==> Reads(g, g.y));
    }
  }

  /** AND gates before and after gate `pos`. */
  lemma NextCount(gates: seq<Gate>, pos: nat)
    requires pos < |gates|
    ensures AndCount(gates[..pos + 1]) == AndCount(gates[..pos]) + if gates[pos].AndGate? then 1 else 0
    ensures AndCount(gates[..pos + 1]) <= AndCount(gates)
  {
    AndCountStep(gates, pos);
    AndCountMonotone(gates, pos + 1, |gates|);
    assert gates[..|gates|] == gates;
  }
}
