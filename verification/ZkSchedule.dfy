/** The zero-knowledge VM's oblivious-transfer budget: what is reserved, what is drawn, and when checks run. */
module ZkSchedule {
  import opened Bits
  import opened Visibility
  import opened ZkView

  /** OTs per consistency check. */
  const CHECK_OTS: nat := 128

  datatype Config = Config(batchSize: nat, chunkCap: nat)
  {
    predicate Valid() {
      0 < batchSize <= chunkCap
    }
  }

  /** A submitted call: its number of AND gates, its inputs and its output. */
  datatype Call = Call(ands: nat, inputs: seq<Range>, output: Range)

  predicate Committed(view: State, r: Range) {
    r.Cells() <= view.inputComplete || r.Cells() <= view.outputComplete
  }

  predicate Ready(view: State, call: Call) {
    forall i | 0 <= i < |call.inputs| :: Committed(view, call.inputs[i])
  }

  function Ands(calls: seq<Call>): nat {
    if calls == [] then 0 else calls[0].ands + Ands(calls[1..])
  }

  lemma {:induction false} AndsPush(calls: seq<Call>, call: Call)
    ensures Ands(calls + [call]) == Ands(calls) + call.ands
  {
    if calls == [] {
      assert (calls + [call])[1..] == [];
    } else {
      assert (calls + [call])[1..] == calls[1..] + [call];
      AndsPush(calls[1..], call);
    }
  }

  // Which calls run.

  /** The ready calls, in order, until `cap` gates are met or exceeded; `total` are taken already. */
  function Taken(calls: seq<Call>, view: State, cap: nat, total: nat): seq<Call> {
    if calls == [] then []
    else if total < cap && Ready(view, calls[0]) then [calls[0]] + Taken(calls[1..], view, cap, total + calls[0].ands)
    else Taken(calls[1..], view, cap, total)
  }

  function Remaining(calls: seq<Call>, view: State, cap: nat, total: nat): seq<Call> {
    if calls == [] then []
    else if total < cap && Ready(view, calls[0]) then Remaining(calls[1..], view, cap, total + calls[0].ands)
    else [calls[0]] + Remaining(calls[1..], view, cap, total)
  }

  /** Extraction splits the gates between the chunk and what stays. */
  lemma {:induction false} ExtractionSplits(calls: seq<Call>, view: State, cap: nat, total: nat)
    ensures Ands(Taken(calls, view, cap, total)) + Ands(Remaining(calls, view, cap, total)) == Ands(calls)
  {
    if calls != [] {
      if total < cap && Ready(view, calls[0]) {
        ExtractionSplits(calls[1..], view, cap, total + calls[0].ands);
        assert ([calls[0]] + Taken(calls[1..], view, cap, total + calls[0].ands))[1..]
            == Taken(calls[1..], view, cap, total + calls[0].ands);
      } else {
        ExtractionSplits(calls[1..], view, cap, total);
        assert ([calls[0]] + Remaining(calls[1..], view, cap, total))[1..] == Remaining(calls[1..], view, cap, total);
      }
    }
  }

  /** A chunk runs only calls each of whose inputs lies wholly in completed inputs, or wholly in computed outputs. */
  lemma {:induction false} ChunkCommitted(calls: seq<Call>, view: State, cap: nat, total: nat, call: Call, r: Range)
    requires call in Taken(calls, view, cap, total) && r in call.inputs
    ensures call in calls
    ensures (forall i: nat | r.Holds(i) :: i in view.inputComplete)
        || (forall i: nat | r.Holds(i) :: i in view.outputComplete)
  {
    if total < cap && Ready(view, calls[0]) {
      if call == calls[0] {
        var k :| 0 <= k < |call.inputs| && call.inputs[k] == r;
        assert Committed(view, call.inputs[k]);
      } else {
        ChunkCommitted(calls[1..], view, cap, total + calls[0].ands, call, r);
      }
    } else {
      ChunkCommitted(calls[1..], view, cap, total, call, r);
    }
  }

  /** A call all of whose inputs are complete stays behind only if the chunk is full. */
  lemma {:induction false} ReadyLeftOnlyIfFull(calls: seq<Call>, view: State, cap: nat, total: nat, call: Call)
    requires call in Remaining(calls, view, cap, total)
    requires forall r | r in call.inputs :: r.Cells() <= view.inputComplete || r.Cells() <= view.outputComplete
    ensures call in calls && total + Ands(Taken(calls, view, cap, total)) >= cap
  {
    if total < cap && Ready(view, calls[0]) {
      ReadyLeftOnlyIfFull(calls[1..], view, cap, total + calls[0].ands, call);
      var rest := Taken(calls[1..], view, cap, total + calls[0].ands);
      assert ([calls[0]] + rest)[1..] == rest;
    } else if call in Remaining(calls[1..], view, cap, total) {
      ReadyLeftOnlyIfFull(calls[1..], view, cap, total, call);
    }
  }

  /** A chunk exceeds the cap by less than its last call. */
  lemma {:induction false} ChunkBound(calls: seq<Call>, view: State, cap: nat, total: nat, most: nat)
    requires forall i | 0 <= i < |calls| :: calls[i].ands <= most
    requires total < cap + most || total == 0
    ensures total + Ands(Taken(calls, view, cap, total)) < cap + most || Ands(Taken(calls, view, cap, total)) == 0
  {
    if calls != [] {
      if total < cap && Ready(view, calls[0]) {
        var rest := Taken(calls[1..], view, cap, total + calls[0].ands);
        ChunkBound(calls[1..], view, cap, total + calls[0].ands, most);
        assert ([calls[0]] + rest)[1..] == rest;
      } else {
        ChunkBound(calls[1..], view, cap, total, most);
      }
    }
  }

  /** The calls whose inputs are committed, in order. */
  function ReadyCalls(calls: seq<Call>, view: State): seq<Call> {
    if calls == [] then []
    else if Ready(view, calls[0]) then [calls[0]] + ReadyCalls(calls[1..], view)
    else ReadyCalls(calls[1..], view)
  }

  /** Some number of leading calls have exactly `n` gates. */
  predicate FillsExactly(calls: seq<Call>, n: nat) {
    exists k | 0 <= k <= |calls| :: Ands(calls[..k]) == n
  }

  lemma PrefixAnds(call: Call, rest: seq<Call>, k: nat)
    requires k <= |rest|
    ensures Ands(([call] + rest)[..k + 1]) == call.ands + Ands(rest[..k])
  {
    assert ([call] + rest)[..k + 1][1..] == rest[..k];
  }

  /** Filling `n > 0` gates exactly takes the first call. */
  lemma FillsStep(call: Call, rest: seq<Call>, n: nat)
    requires n > 0
    ensures FillsExactly([call] + rest, n) <==> n >= call.ands && FillsExactly(rest, n - call.ands)
  {
    var calls := [call] + rest;
    if FillsExactly(calls, n) {
      var k :| 0 <= k <= |calls| && Ands(calls[..k]) == n;
      PrefixAnds(call, rest, k - 1);
    }
    if n >= call.ands && FillsExactly(rest, n - call.ands) {
      var k :| 0 <= k <= |rest| && Ands(rest[..k]) == n - call.ands;
      PrefixAnds(call, rest, k);
      assert Ands(calls[..k + 1]) == n;
    }
  }

  lemma FillsNothing(calls: seq<Call>)
    ensures FillsExactly(calls, 0)
  {
    assert Ands(calls[..0]) == 0;
  }

  /** With `total` gates taken already, the chunk stays within the cap exactly if all ready calls do or some of them
      fill it. */
  lemma {:induction false} ChunkFitsFrom(calls: seq<Call>, view: State, cap: nat, total: nat)
    requires total < cap
    ensures var ready := ReadyCalls(calls, view);
            total + Ands(Taken(calls, view, cap, total)) <= cap
            <==> total + Ands(ready) <= cap || FillsExactly(ready, cap - total)
  {
    if calls != [] {
      if Ready(view, calls[0]) {
        var rest, next := ReadyCalls(calls[1..], view), total + calls[0].ands;
        var taken := Taken(calls[1..], view, cap, next);
        FillsStep(calls[0], rest, cap - total);
        assert ([calls[0]] + rest)[1..] == rest && ([calls[0]] + taken)[1..] == taken;
        if next < cap {
          ChunkFitsFrom(calls[1..], view, cap, next);
        } else {
          FullTakesNothing(calls[1..], view, cap, next);
          FillsNothing(rest);
        }
      } else {
        ChunkFitsFrom(calls[1..], view, cap, total);
      }
    }
  }

  lemma {:induction false} FullTakesNothing(calls: seq<Call>, view: State, cap: nat, total: nat)
    requires total >= cap
    ensures Taken(calls, view, cap, total) == []
  {
    if calls != [] {
      FullTakesNothing(calls[1..], view, cap, total);
    }
  }

  /** A chunk totals at most the cap exactly if all ready calls together do, or some number of leading ready calls total
      exactly the cap. */
  lemma ChunkFitsIff(calls: seq<Call>, view: State, cap: nat)
    ensures var ready := ReadyCalls(calls, view);
            Ands(Taken(calls, view, cap, 0)) <= cap <==> Ands(ready) <= cap || FillsExactly(ready, cap)
  {
    if cap == 0 {
      FullTakesNothing(calls, view, cap, 0);
      FillsNothing(ReadyCalls(calls, view));
    } else {
      ChunkFitsFrom(calls, view, cap, 0);
    }
  }

  /** One ready call of two gates under a cap of one gate. */
  lemma ChunkExceedsCap(view: State)
    ensures var call := Call(2, [], Range(0, 0));
            Ready(view, call) && Ands(Taken([call], view, 1, 0)) == 2 > 1
  {
    var call := Call(2, [], Range(0, 0));
    assert [call][1..] == [];
    assert Taken([call], view, 1, 0) == [call];
    assert Ands([call]) == 2 + Ands([]);
  }

  // Checks and draws.

  /** Number of consistency checks for a chunk, `pending` gates being unchecked before it. */
  function CheckCount(calls: seq<Call>, batch: nat, pending: nat): nat {
    if calls == [] then (if pending > 0 then 1 else 0)
    else if pending + calls[0].ands >= batch then 1 + CheckCount(calls[1..], batch, 0)
    else CheckCount(calls[1..], batch, pending + calls[0].ands)
  }

  /** The sizes drawn from the OT pool while a chunk executes: each call's gates, and each check when its batch is full.
      */
  function ChunkDraws(calls: seq<Call>, batch: nat, pending: nat): seq<nat> {
    if calls == [] then (if pending > 0 then [CHECK_OTS] else [])
    else if pending + calls[0].ands >= batch then [calls[0].ands, CHECK_OTS] + ChunkDraws(calls[1..], batch, 0)
    else [calls[0].ands] + ChunkDraws(calls[1..], batch, pending + calls[0].ands)
  }

  function Total(draws: seq<nat>): nat {
    if draws == [] then 0 else draws[0] + Total(draws[1..])
  }

  lemma {:induction false} TotalConcat(a: seq<nat>, b: seq<nat>)
    ensures Total(a + b) == Total(a) + Total(b)
  {
    if a == [] {
      assert a + b == b;
    } else {
      assert (a + b)[1..] == a[1..] + b;
      TotalConcat(a[1..], b);
    }
  }

  /** What a chunk draws is exactly its gates and its checks. */
  lemma {:induction false} ChunkDrawsTotal(calls: seq<Call>, batch: nat, pending: nat)
    ensures Total(ChunkDraws(calls, batch, pending)) == Ands(calls) + CHECK_OTS * CheckCount(calls, batch, pending)
  {
    if calls == [] {
      assert Total([CHECK_OTS]) == CHECK_OTS + Total([]);
    } else if pending + calls[0].ands >= batch {
      ChunkDrawsTotal(calls[1..], batch, 0);
      TotalConcat([calls[0].ands, CHECK_OTS], ChunkDraws(calls[1..], batch, 0));
      PairTotal(calls[0].ands, CHECK_OTS);
    } else {
      ChunkDrawsTotal(calls[1..], batch, pending + calls[0].ands);
      TotalConcat([calls[0].ands], ChunkDraws(calls[1..], batch, pending + calls[0].ands));
      assert [calls[0].ands][1..] == [];
    }
  }

  lemma PairTotal(a: nat, b: nat)
    ensures Total([a, b]) == a + b
  {
    assert [a, b][1..] == [b];
    assert [b][1..] == [];
    assert Total([b]) == b + Total([]);
  }

  // The state of a party.

  datatype Vm = Vm(view: State, calls: seq<Call>, gates: nat, checks: nat, reserved: nat, consumed: nat,
                   draws: seq<nat>)

  function Initial(role: Role): Vm {
    Vm(ZkView.Initial(role), [], 0, 0, 0, 0, [])
  }

  function Quotient(a: nat, b: nat): nat
    requires b > 0
  {
    if a < b then 0 else 1 + Quotient(a - b, b)
  }

  function Remainder(a: nat, b: nat): nat
    requires b > 0
  {
    if a < b then a else Remainder(a - b, b)
  }

  lemma {:induction false} QuotientIsDivision(a: nat, b: nat)
    requires b > 0
    ensures Quotient(a, b) == a / b && Remainder(a, b) == a % b
  {
    if a < b {
      DivModUnique(a, b, 0, a);
    } else {
      QuotientIsDivision(a - b, b);
      var q := (a - b) / b;
      assert b * (q + 1) == b * q + b;
      DivModUnique(a, b, q + 1, (a - b) % b);
    }
  }

  /** The consistency checks a call of `count` gates adds to `ands` gates, in submission order. */
  function NewChecks(batch: nat, ands: nat, count: nat): nat
    requires batch > 0 && count > 0
  {
    var partial := Remainder(ands, batch);
    Quotient(partial + count - 1, batch) + if partial == 0 then 1 else 0
  }

  function Submitted(s: Vm, view: State, call: Call, gates: nat, checks: nat): Vm {
    s.(view := view, calls := s.calls + [call], gates := s.gates + gates, checks := s.checks + checks,
       reserved := s.reserved + gates + checks * CHECK_OTS)
  }

  /** The gate OTs registered for a call: all of them, if they fit the chunk window. */
  function NewGates(c: Config, gates: nat, ands: nat): nat {
    if ands > 0 && gates + ands <= c.chunkCap then ands else 0
  }

  /** The checks registered for a call, if it has any AND gates. */
  function SubmitChecks(c: Config, calls: seq<Call>, ands: nat): nat
    requires c.Valid()
  {
    if ands > 0 then NewChecks(c.batchSize, Ands(calls), ands) else 0
  }

  /** A call whose output is the next `outputs` cells. */
  function NewCall(view: State, ands: nat, inputs: seq<Range>, outputs: nat): Call {
    Call(ands, inputs, Range(view.len, view.len + outputs))
  }

  /** Submitting a call allocates its output and pre-registers OTs for it. */
  function AfterSubmit(c: Config, s: Vm, ands: nat, inputs: seq<Range>, outputs: nat): Vm
    requires c.Valid()
  {
    Submitted(s, After(s.view, AllocOutput(outputs)), NewCall(s.view, ands, inputs, outputs),
              NewGates(c, s.gates, ands), SubmitChecks(c, s.calls, ands))
  }

  /** The step by which a party marks an input of the prover. */
  function MarkInput(role: Role, r: Range): Step {
    if role.Prover? then MarkPrivate(r) else MarkBlind(r)
  }

  /** Marking an input of the prover reserves one OT per cell. */
  function AfterMark(s: Vm, r: Range): Vm
    requires Accepts(s.view, MarkInput(s.view.role, r)) && r.start <= r.end
  {
    s.(view := After(s.view, MarkInput(s.view.role, r)), reserved := s.reserved + (r.end - r.start))
  }

  /** The view after flushing until nothing is left to flush. */
  function Settled(view: State): State {
    if view.flush.IsEmpty() then view
    else
      var next := Flushed(view, view.flush);
      if next.flush.IsEmpty() then next else Flushed(next, next.flush)
  }

  function FlushDraws(view: State): seq<nat> {
    if view.flush.commit == {} then [] else [|view.flush.commit|]
  }

  /** A flush claims the reserved OTs of newly committed inputs. */
  function AfterFlush(s: Vm): Vm {
    s.(view := Settled(s.view), consumed := s.consumed + |s.view.flush.commit|, draws := s.draws + FlushDraws(s.view))
  }

  function OutputsSet(view: State, calls: seq<Call>): State {
    if calls == [] then view else OutputAfter(OutputsSet(view, calls[..|calls| - 1]), calls[|calls| - 1].output)
  }

  function Min(a: nat, b: nat): nat {
    if a <= b then a else b
  }

  /** Reserving what a chunk needs beyond what is already registered. */
  function AfterStage(c: Config, s: Vm): Vm
    requires c.Valid()
  {
    var chunk := Taken(s.calls, s.view, c.chunkCap, 0);
    var gates, checks := Ands(chunk), CheckCount(chunk, c.batchSize, 0);
    var preGates, preChecks := Min(s.gates, gates), Min(s.checks, checks);
    s.(calls := Remaining(s.calls, s.view, c.chunkCap, 0), gates := s.gates - preGates, checks := s.checks - preChecks,
       reserved := s.reserved + (gates - preGates) + (checks - preChecks) * CHECK_OTS)
  }

  /** Executing one chunk of ready calls. */
  function AfterExecute(c: Config, s: Vm): Vm
    requires c.Valid()
  {
    var chunk := Taken(s.calls, s.view, c.chunkCap, 0);
    if chunk == [] then s
    else
      var t := AfterFlush(AfterStage(c, s));
      var draws := ChunkDraws(chunk, c.batchSize, 0);
      t.(view := OutputsSet(t.view, chunk), consumed := t.consumed + Total(draws), draws := t.draws + draws)
  }

  // Conservation.

  /** Inputs of the prover that have a reserved OT and have not claimed it. */
  function Unclaimed(view: State): set<nat> {
    ProverInputs(view) - view.inputComplete
  }

  /** Reserved minus consumed OTs are the registered gates and checks and the unclaimed input reservations. */
  ghost predicate Conserved(s: Vm) {
    s.reserved == s.consumed + s.gates + CHECK_OTS * s.checks + |Unclaimed(s.view)|
  }

  predicate OutputsAllocated(calls: seq<Call>, outputs: set<nat>) {
    forall i | 0 <= i < |calls| :: calls[i].output.Cells() <= outputs
  }

  ghost predicate Sound(s: Vm) {
    ZkView.Valid(s.view) && Conserved(s) && OutputsAllocated(s.calls, s.view.outputAll)
  }

  lemma InitialSound(role: Role)
    ensures Sound(Initial(role))
  {
    InitialValid(role);
    assert Unclaimed(ZkView.Initial(role)) == {};
  }

  /** Adding a call with its OTs, whatever their number. */
  lemma SubmitSoundWith(s: Vm, view: State, call: Call, gates: nat, checks: nat)
    requires Sound(s) && ZkView.Valid(view) && Unclaimed(view) == Unclaimed(s.view)
    requires s.view.outputAll <= view.outputAll && call.output.Cells() <= view.outputAll
    ensures Sound(Submitted(s, view, call, gates, checks))
  {
    MoreOutputs(s.calls, call, s.view.outputAll, view.outputAll);
  }

  lemma MoreOutputs(calls: seq<Call>, call: Call, a: set<nat>, b: set<nat>)
    requires OutputsAllocated(calls, a) && a <= b && call.output.Cells() <= b
    ensures OutputsAllocated(calls + [call], b)
  {
  }

  lemma AllocUnclaimed(view: State, n: nat)
    requires ZkView.Valid(view)
    ensures var t := After(view, AllocOutput(n));
            ZkView.Valid(t) && Unclaimed(t) == Unclaimed(view)
              && t.outputAll == view.outputAll + Range(view.len, view.len + n).Cells()
  {
    StepValid(view, AllocOutput(n));
  }

  lemma SubmitSoundAny(s: Vm, ands: nat, inputs: seq<Range>, outputs: nat, gates: nat, checks: nat)
    requires Sound(s)
    ensures Sound(Submitted(s, After(s.view, AllocOutput(outputs)), NewCall(s.view, ands, inputs, outputs), gates,
                            checks))
  {
    AllocUnclaimed(s.view, outputs);
    SubmitSoundWith(s, After(s.view, AllocOutput(outputs)), NewCall(s.view, ands, inputs, outputs), gates, checks);
  }

  lemma SubmitSound(c: Config, s: Vm, ands: nat, inputs: seq<Range>, outputs: nat)
    requires Sound(s) && c.Valid()
    ensures Sound(AfterSubmit(c, s, ands, inputs, outputs))
  {
    SubmitSoundAny(s, ands, inputs, outputs, NewGates(c, s.gates, ands), SubmitChecks(c, s.calls, ands));
  }

  lemma CellCount(r: Range)
    requires r.start <= r.end
    ensures |r.Cells()| == r.end - r.start
    decreases r.end - r.start
  {
    if r.start < r.end {
      var last := Range(r.start, r.end - 1);
      CellCount(last);
      assert r.Cells() == last.Cells() + {r.end - 1};
    } else {
      assert r.Cells() == {};
    }
  }

  lemma CardUnion(a: set<nat>, b: set<nat>)
    requires a !! b
    ensures |a + b| == |a| + |b|
  {
  }

  /** Marked cells add to the unclaimed inputs. */
  lemma MarkedCells(view: State, r: Range)
    requires ZkView.Valid(view) && Accepts(view, MarkInput(view.role, r))
    ensures var t := After(view, MarkInput(view.role, r));
            ZkView.Valid(t) && t.outputAll == view.outputAll && Unclaimed(t) == Unclaimed(view) + r.Cells()
              && Unclaimed(view) !! r.Cells()
  {
    StepValid(view, MarkInput(view.role, r));
    FreshRange(view.vis, r);
  }

  lemma MarkUnclaimed(view: State, r: Range)
    requires ZkView.Valid(view) && r.start <= r.end && Accepts(view, MarkInput(view.role, r))
    ensures var t := After(view, MarkInput(view.role, r));
            ZkView.Valid(t) && t.outputAll == view.outputAll && |Unclaimed(t)| == |Unclaimed(view)| + (r.end - r.start)
  {
    MarkedCells(view, r);
    CellCount(r);
    CardUnion(Unclaimed(view), r.Cells());
  }

  lemma MarkSound(s: Vm, r: Range)
    requires Sound(s) && r.start <= r.end && Accepts(s.view, MarkInput(s.view.role, r))
    ensures Sound(AfterMark(s, r))
  {
    MarkUnclaimed(s.view, r);
  }

  lemma SettledFacts(view: State)
    requires ZkView.Valid(view)
    ensures ZkView.Valid(Settled(view)) && Settled(view).flush.IsEmpty()
    ensures Unclaimed(Settled(view)) == Unclaimed(view) - view.flush.commit
    ensures Settled(view).outputAll == view.outputAll
  {
    if !view.flush.IsEmpty() {
      FlushValid(view);
      FlushValid(Flushed(view, view.flush));
    }
  }

  lemma FlushUnclaimed(view: State)
    requires ZkView.Valid(view)
    ensures |Unclaimed(Settled(view))| + |view.flush.commit| == |Unclaimed(view)|
  {
    SettledFacts(view);
    CommitUnclaimed(view);
    SplitSize(Unclaimed(view), view.flush.commit);
  }

  /** The inputs about to be committed hold a reservation. */
  lemma CommitUnclaimed(view: State)
    requires ZkView.Valid(view)
    ensures view.flush.commit <= Unclaimed(view)
  {
  }

  lemma SplitSize(a: set<nat>, b: set<nat>)
    requires b <= a
    ensures |a - b| + |b| == |a|
  {
    assert a == (a - b) + b;
    CardUnion(a - b, b);
  }

  lemma {:induction false} TakenFrom(calls: seq<Call>, view: State, cap: nat, total: nat, outputs: set<nat>)
    requires OutputsAllocated(calls, outputs)
    ensures OutputsAllocated(Taken(calls, view, cap, total), outputs)
        && OutputsAllocated(Remaining(calls, view, cap, total), outputs)
  {
    if calls != [] {
      if total < cap && Ready(view, calls[0]) {
        TakenFrom(calls[1..], view, cap, total + calls[0].ands, outputs);
      } else {
        TakenFrom(calls[1..], view, cap, total, outputs);
      }
    }
  }

  /** A state with `spare` OTs set aside beyond what is registered. */
  ghost predicate SoundWith(s: Vm, spare: nat) {
    && ZkView.Valid(s.view) && OutputsAllocated(s.calls, s.view.outputAll)
    && s.reserved == s.consumed + s.gates + CHECK_OTS * s.checks + |Unclaimed(s.view)| + spare
  }

  /** After staging, exactly the chunk's gates and checks are set aside. */
  lemma StageSound(c: Config, s: Vm)
    requires Sound(s) && c.Valid()
    ensures var chunk := Taken(s.calls, s.view, c.chunkCap, 0);
            SoundWith(AfterStage(c, s), Ands(chunk) + CHECK_OTS * CheckCount(chunk, c.batchSize, 0))
  {
    TakenFrom(s.calls, s.view, c.chunkCap, 0, s.view.outputAll);
  }

  lemma FlushSoundWith(s: Vm, spare: nat)
    requires SoundWith(s, spare)
    ensures SoundWith(AfterFlush(s), spare)
  {
    SettledFacts(s.view);
    FlushUnclaimed(s.view);
  }

  lemma {:induction false} OutputsSetKeeps(view: State, calls: seq<Call>)
    requires ZkView.Valid(view) && OutputsAllocated(calls, view.outputAll)
    ensures ZkView.Valid(OutputsSet(view, calls)) && Unclaimed(OutputsSet(view, calls)) == Unclaimed(view)
    ensures OutputsSet(view, calls).outputAll == view.outputAll && OutputsSet(view, calls).role == view.role
  {
    if calls != [] {
      var n := |calls| - 1;
      OutputsSetKeeps(view, calls[..n]);
      SetOutputValid(OutputsSet(view, calls[..n]), calls[n].output);
    }
  }

  /** The chunk's draws use up exactly what was set aside for it. */
  lemma DrawSound(t: Vm, chunk: seq<Call>, batch: nat)
    requires SoundWith(t, Ands(chunk) + CHECK_OTS * CheckCount(chunk, batch, 0))
        && OutputsAllocated(chunk, t.view.outputAll)
    ensures Sound(t.(view := OutputsSet(t.view, chunk), consumed := t.consumed + Total(ChunkDraws(chunk, batch, 0)),
                     draws := t.draws + ChunkDraws(chunk, batch, 0)))
  {
    ChunkDrawsTotal(chunk, batch, 0);
    OutputsSetKeeps(t.view, chunk);
  }

  lemma ExecuteSound(c: Config, s: Vm)
    requires Sound(s) && c.Valid()
    ensures Sound(AfterExecute(c, s))
  {
    var chunk := Taken(s.calls, s.view, c.chunkCap, 0);
    if chunk != [] {
      StageSound(c, s);
      FlushSoundWith(AfterStage(c, s), Ands(chunk) + CHECK_OTS * CheckCount(chunk, c.batchSize, 0));
      TakenFrom(s.calls, s.view, c.chunkCap, 0, s.view.outputAll);
      SettledFacts(s.view);
      DrawSound(AfterFlush(AfterStage(c, s)), chunk, c.batchSize);
    }
  }

  // Runs.

  /** What a party does. View steps are those that need no OTs. */
  datatype Event =
    | Submit(ands: nat, inputs: seq<Range>, outputs: nat)
    | MarkProverInput(r: Range)
    | ViewStep(step: Step)
    | Flush
    | Execute

  predicate PlainStep(step: Step) {
    step.AllocInput? || step.MarkPublic? || step.Assign? || step.Commit? || step.Decode?
  }

  predicate Allowed(s: Vm, e: Event) {
    match e
    case MarkProverInput(r) => r.start <= r.end && Accepts(s.view, MarkInput(s.view.role, r))
    case ViewStep(step) => PlainStep(step) && Accepts(s.view, step)
    case _ => true
  }

  function Next(c: Config, s: Vm, e: Event): Vm
    requires c.Valid() && Allowed(s, e)
  {
    match e
    case Submit(ands, inputs, outputs) => AfterSubmit(c, s, ands, inputs, outputs)
    case MarkProverInput(r) => AfterMark(s, r)
    case ViewStep(step) => s.(view := After(s.view, step))
    case Flush => AfterFlush(s)
    case Execute => AfterExecute(c, s)
  }

  lemma PlainStepFacts(view: State, step: Step)
    requires ZkView.Valid(view) && Accepts(view, step) && PlainStep(step)
    ensures var t := After(view, step); ZkView.Valid(t) && Unclaimed(t) == Unclaimed(view)
                                        && view.outputAll == t.outputAll
  {
    StepValid(view, step);
    if step.MarkPublic? {
      FreshRange(view.vis, step.r);
    }
  }

  /** Every event keeps the budget balanced. */
  lemma EventSound(c: Config, s: Vm, e: Event)
    requires c.Valid() && Sound(s) && Allowed(s, e)
    ensures Sound(Next(c, s, e))
  {
    match e
    case Submit(ands, inputs, outputs) => SubmitSound(c, s, ands, inputs, outputs);
    case MarkProverInput(r) => MarkSound(s, r);
    case ViewStep(step) => PlainStepFacts(s.view, step);
    case Flush => FlushSoundWith(s, 0);
    case Execute => ExecuteSound(c, s);
  }

  /** Both parties take an event together, except that each assigns for itself. */
  datatype PairEvent = Both(e: Event) | ProverAssigns(r: Range) | VerifierAssigns(r: Range)

  predicate PairAllowed(p: Vm, v: Vm, e: PairEvent) {
    match e
    case Both(e) => !(e.ViewStep? && e.step.Assign?) && Allowed(p, e) && Allowed(v, e)
    case ProverAssigns(r) => Allowed(p, ViewStep(Assign(r)))
    case VerifierAssigns(r) => Allowed(v, ViewStep(Assign(r)))
  }

  function PairNext(c: Config, p: Vm, v: Vm, e: PairEvent): (Vm, Vm)
    requires c.Valid() && PairAllowed(p, v, e)
  {
    match e
    case Both(e) => (Next(c, p, e), Next(c, v, e))
    case ProverAssigns(r) => (Next(c, p, ViewStep(Assign(r))), v)
    case VerifierAssigns(r) => (p, Next(c, v, ViewStep(Assign(r))))
  }

  /** The parties agree on the budget, the calls and everything drawn so far. */
  predicate Same(p: Vm, v: Vm) {
    && InSync(p.view, v.view) && p.calls == v.calls && p.gates == v.gates && p.checks == v.checks
    && p.reserved == v.reserved && p.consumed == v.consumed && p.draws == v.draws
  }

  ghost predicate Agree(p: Vm, v: Vm) {
    Sound(p) && Sound(v) && Same(p, v)
  }

  lemma {:induction false} SameTaken(p: State, v: State, calls: seq<Call>, cap: nat, total: nat)
    requires InSync(p, v)
    ensures Taken(calls, p, cap, total) == Taken(calls, v, cap, total)
        && Remaining(calls, p, cap, total) == Remaining(calls, v, cap, total)
  {
    if calls != [] {
      assert Ready(p, calls[0]) == Ready(v, calls[0]);
      SameTaken(p, v, calls[1..], cap, total + calls[0].ands);
      SameTaken(p, v, calls[1..], cap, total);
    }
  }

  lemma {:induction false} SameOutputs(p: State, v: State, calls: seq<Call>)
    requires InSync(p, v)
    ensures InSync(OutputsSet(p, calls), OutputsSet(v, calls))
  {
    if calls != [] {
      SameOutputs(p, v, calls[..|calls| - 1]);
    }
  }

  lemma SameSettled(p: State, v: State)
    requires InSync(p, v)
    ensures InSync(Settled(p), Settled(v))
  {
  }

  lemma SameSubmit(c: Config, p: Vm, v: Vm, ands: nat, inputs: seq<Range>, outputs: nat)
    requires c.Valid() && Same(p, v)
    ensures Same(AfterSubmit(c, p, ands, inputs, outputs), AfterSubmit(c, v, ands, inputs, outputs))
  {
    assert InSync(After(p.view, AllocOutput(outputs)), After(v.view, AllocOutput(outputs)));
  }

  lemma SameMark(p: Vm, v: Vm, r: Range)
    requires Same(p, v) && Allowed(p, MarkProverInput(r)) && Allowed(v, MarkProverInput(r))
    requires ZkView.Valid(p.view) && ZkView.Valid(v.view)
    ensures Same(AfterMark(p, r), AfterMark(v, r))
  {
    MirroredStep(p.view, v.view, MarkPrivate(r));
  }

  lemma SameFlush(p: Vm, v: Vm)
    requires Same(p, v)
    ensures Same(AfterFlush(p), AfterFlush(v))
  {
    SameSettled(p.view, v.view);
  }

  lemma SameStage(c: Config, p: Vm, v: Vm)
    requires c.Valid() && Same(p, v)
    ensures Same(AfterStage(c, p), AfterStage(c, v))
    ensures Taken(p.calls, p.view, c.chunkCap, 0) == Taken(v.calls, v.view, c.chunkCap, 0)
  {
    SameTaken(p.view, v.view, p.calls, c.chunkCap, 0);
  }

  lemma SameExecute(c: Config, p: Vm, v: Vm)
    requires c.Valid() && Same(p, v)
    ensures Same(AfterExecute(c, p), AfterExecute(c, v))
  {
    SameStage(c, p, v);
    SameFlush(AfterStage(c, p), AfterStage(c, v));
    SameOutputs(Settled(p.view), Settled(v.view), Taken(p.calls, p.view, c.chunkCap, 0));
  }

  lemma SameEvent(c: Config, p: Vm, v: Vm, e: Event)
    requires c.Valid() && Same(p, v) && Allowed(p, e) && Allowed(v, e) && !(e.ViewStep? && e.step.Assign?)
    requires ZkView.Valid(p.view) && ZkView.Valid(v.view)
    ensures Same(Next(c, p, e), Next(c, v, e))
  {
    match e
    case Submit(ands, inputs, outputs) => SameSubmit(c, p, v, ands, inputs, outputs);
    case MarkProverInput(r) => SameMark(p, v, r);
    case ViewStep(step) => MirroredStep(p.view, v.view, step);
    case Flush => SameFlush(p, v);
    case Execute => SameExecute(c, p, v);
  }

  lemma SamePair(c: Config, p: Vm, v: Vm, e: PairEvent)
    requires c.Valid() && Same(p, v) && PairAllowed(p, v, e) && ZkView.Valid(p.view) && ZkView.Valid(v.view)
    ensures var (q, w) := PairNext(c, p, v, e); Same(q, w)
  {
    if e.Both? {
      SameEvent(c, p, v, e.e);
    }
  }

  lemma PairKeepsAgreement(c: Config, p: Vm, v: Vm, e: PairEvent)
    requires c.Valid() && Agree(p, v) && PairAllowed(p, v, e)
    ensures var (q, w) := PairNext(c, p, v, e); Agree(q, w)
  {
    SamePair(c, p, v, e);
    match e
    case Both(e) =>
      EventSound(c, p, e);
      EventSound(c, v, e);
    case ProverAssigns(r) => EventSound(c, p, ViewStep(Assign(r)));
    case VerifierAssigns(r) => EventSound(c, v, ViewStep(Assign(r)));
  }

  ghost predicate Reaches(c: Config, p: Vm, v: Vm, run: seq<PairEvent>, p': Vm, v': Vm)
    requires c.Valid()
    decreases |run|
  {
    if run == [] then p' == p && v' == v
    else PairAllowed(p, v, run[0]) && var (q, w) := PairNext(c, p, v, run[0]); Reaches(c, q, w, run[1..], p', v')
  }

  lemma {:induction false} RunAgrees(c: Config, p: Vm, v: Vm, run: seq<PairEvent>, p': Vm, v': Vm)
    requires c.Valid() && Agree(p, v) && Reaches(c, p, v, run, p', v')
    ensures Agree(p', v')
    decreases |run|
  {
    if run != [] {
      var (q, w) := PairNext(c, p, v, run[0]);
      PairKeepsAgreement(c, p, v, run[0]);
      RunAgrees(c, q, w, run[1..], p', v');
    }
  }

  /** Over every run, the parties draw the same sequence of sizes, and each one's reserved minus consumed OTs are its
      registered gates and checks and its unclaimed input reservations. */
  lemma BudgetBalances(c: Config, run: seq<PairEvent>, p: Vm, v: Vm)
    requires c.Valid() && Reaches(c, Initial(Prover), Initial(Verifier), run, p, v)
    ensures p.draws == v.draws && p.gates == v.gates && p.checks == v.checks && p.calls == v.calls
    ensures p.reserved == p.consumed + p.gates + CHECK_OTS * p.checks + |Unclaimed(p.view)|
    ensures v.reserved == v.consumed + v.gates + CHECK_OTS * v.checks + |Unclaimed(v.view)|
  {
    InitialSound(Prover);
    InitialSound(Verifier);
    RunAgrees(c, Initial(Prover), Initial(Verifier), run, p, v);
  }
}
