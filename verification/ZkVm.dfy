/** The zero-knowledge VM of one party: submission, flushing and chunked execution against its OT budget. */
module ZkVm {
  import opened Results
  import opened Bits
  import opened Visibility
  import opened ZkView
  import opened ZkSchedule

  datatype PoolError = Insufficient(available: nat, requested: nat)

  /** Correlated OTs: reserved, then materialized by a flush, then consumed. */
  class OtPool {
    var reserved: nat
    var materialized: nat
    var consumed: nat
    /** The sizes drawn so far. */
    ghost var draws: seq<nat>

    ghost predicate Valid()
      reads this
    {
      consumed <= materialized <= reserved
    }

    constructor ()
      ensures Valid() && reserved == consumed == 0 && draws == []
    {
      reserved, materialized, consumed, draws := 0, 0, 0, [];
    }

    method Alloc(n: nat)
      requires Valid()
      modifies this
      ensures Valid() && reserved == old(reserved) + n && materialized == old(materialized)
          && consumed == old(consumed) && draws == old(draws)
    {
      reserved := reserved + n;
    }

    predicate WantsFlush()
      reads this
    {
      materialized < reserved
    }

    method Flush()
      requires Valid()
      modifies this
      ensures Valid() && materialized == reserved == old(reserved) && consumed == old(consumed) && draws == old(draws)
    {
      materialized := reserved;
    }

    /** Draws `n` OTs if that many are materialized. */
    method TryRecv(n: nat) returns (r: Result<(), PoolError>)
      requires Valid()
      modifies this
      ensures Valid() && reserved == old(reserved) && materialized == old(materialized)
      ensures r.Ok? <==> old(consumed) + n <= materialized
      ensures r.Ok? ==> consumed == old(consumed) + n && draws == old(draws) + [n]
      ensures r.Err? ==> consumed == old(consumed) && draws == old(draws)
    {
      if consumed + n > materialized {
        return Err(Insufficient(materialized - consumed, n));
      }
      consumed := consumed + n;
      draws := draws + [n];
      r := Ok(());
    }
  }

  class CallStack {
    var inner: seq<Call>
    /** AND gates currently in the stack. */
    var andCount: nat

    ghost predicate Valid()
      reads this
    {
      andCount == Ands(inner)
    }

    constructor ()
      ensures Valid() && inner == []
    {
      inner, andCount := [], 0;
    }

    method Push(call: Call)
      requires Valid()
      modifies this
      ensures Valid() && inner == old(inner) + [call]
    {
      AndsPush(inner, call);
      andCount := andCount + call.ands;
      inner := inner + [call];
    }

    /** Removes the ready calls, stopping once the soft limit of AND gates is met or exceeded. */
    method ExtractIf(limit: nat, view: State) returns (chunk: seq<Call>)
      requires Valid() && limit > 0
      modifies this
      ensures Valid() && chunk == Taken(old(inner), view, limit, 0) && inner == Remaining(old(inner), view, limit, 0)
    {
      var left;
      chunk, left := Extract(inner, limit, view);
      ExtractionSplits(inner, view, limit, 0);
      andCount := andCount - Ands(chunk);
      inner := left;
    }
  }

  lemma ExtractStep(calls: seq<Call>, i: nat, view: State, cap: nat, total: nat)
    requires i < |calls|
    ensures var rest, next := calls[i + 1..], total + calls[i].ands;
      if total < cap && Ready(view, calls[i]) then
        && Taken(calls[i..], view, cap, total) == [calls[i]] + Taken(rest, view, cap, next)
        && Remaining(calls[i..], view, cap, total) == Remaining(rest, view, cap, next)
      else
        && Taken(calls[i..], view, cap, total) == Taken(rest, view, cap, total)
        && Remaining(calls[i..], view, cap, total) == [calls[i]] + Remaining(rest, view, cap, total)
  {
    assert calls[i..][0] == calls[i] && calls[i..][1..] == calls[i + 1..];
  }

  lemma Regroup<T>(a: seq<T>, x: T, b: seq<T>)
    ensures a + ([x] + b) == (a + [x]) + b
  {
  }

  method Extract(calls: seq<Call>, softLimit: nat, view: State) returns (taken: seq<Call>, left: seq<Call>)
    requires softLimit > 0
    ensures taken == Taken(calls, view, softLimit, 0) && left == Remaining(calls, view, softLimit, 0)
  {
    taken, left := [], [];
    var total: nat, limit := 0, false;
    ghost var chunk, kept := Taken(calls, view, softLimit, 0), Remaining(calls, view, softLimit, 0);
    assert calls[0..] == calls;
    for i := 0 to |calls|
      invariant limit == (total >= softLimit)
      invariant chunk == taken + Taken(calls[i..], view, softLimit, total)
      invariant kept == left + Remaining(calls[i..], view, softLimit, total)
    {
      ExtractStep(calls, i, view, softLimit, total);
      if !limit && Ready(view, calls[i]) {
        total := total + calls[i].ands;
        limit := total >= softLimit;
        Regroup(taken, calls[i], Taken(calls[i + 1..], view, softLimit, total));
        taken := taken + [calls[i]];
      } else {
        Regroup(left, calls[i], Remaining(calls[i + 1..], view, softLimit, total));
        left := left + [calls[i]];
      }
    }
  }

  /** The OT demand of a chunk, mirroring how its batches will be checked. */
  method Simulate(chunk: seq<Call>, batchSize: nat) returns (gates: nat, checks: nat)
    ensures gates == Ands(chunk) && checks == CheckCount(chunk, batchSize, 0)
  {
    gates, checks := 0, 0;
    var pending: nat := 0;
    assert chunk[0..] == chunk;
    for i := 0 to |chunk|
      invariant gates + Ands(chunk[i..]) == Ands(chunk)
      invariant checks + CheckCount(chunk[i..], batchSize, pending) == CheckCount(chunk, batchSize, 0)
    {
      assert chunk[i..][0] == chunk[i] && chunk[i..][1..] == chunk[i + 1..];
      gates := gates + chunk[i].ands;
      pending := pending + chunk[i].ands;
      if pending >= batchSize {
        checks := checks + 1;
        pending := 0;
      }
    }
    if pending > 0 {
      checks := checks + 1;
    }
  }

  // Executing a chunk in check batches.

  function Sizes(calls: seq<Call>): seq<nat> {
    if calls == [] then [] else [calls[0].ands] + Sizes(calls[1..])
  }

  /** No proper prefix of the first `k` calls fills the batch. */
  predicate FillsLast(calls: seq<Call>, batch: nat, pending: nat, k: nat) {
    1 <= k <= |calls| && forall m: nat | 1 <= m < k :: pending + Ands(calls[..m]) < batch
  }

  lemma FillsTail(calls: seq<Call>, batch: nat, pending: nat, k: nat)
    requires FillsLast(calls, batch, pending, k) && k > 1
    ensures pending + calls[0].ands < batch && FillsLast(calls[1..], batch, pending + calls[0].ands, k - 1)
    ensures Ands(calls[..k]) == calls[0].ands + Ands(calls[1..][..k - 1])
  {
    assert forall m: nat | 1 <= m <= k :: calls[..m][1..] == calls[1..][..m - 1];
    assert calls[..1][1..] == [];
    assert pending + Ands(calls[..1]) < batch;
    forall m: nat | 1 <= m < k - 1 ensures pending + calls[0].ands + Ands(calls[1..][..m]) < batch {
      assert pending + Ands(calls[..m + 1]) < batch;
      assert calls[..m + 1][1..] == calls[1..][..m];
    }
  }

  function WithCheck(full: bool, rest: seq<nat>): seq<nat> {
    if full then [CHECK_OTS] + rest else rest
  }

  /** The draws after a batch that brings the pending gates to `total`: a check if it is full, then the other calls. */
  function RestDraws(rest: seq<Call>, batch: nat, total: nat): seq<nat> {
    WithCheck(total >= batch, ChunkDraws(rest, batch, if total >= batch then 0 else total))
  }

  lemma FirstDraw(calls: seq<Call>, batch: nat, pending: nat)
    requires calls != []
    ensures ChunkDraws(calls, batch, pending) == [calls[0].ands] + RestDraws(calls[1..], batch, pending + calls[0].ands)
  {
  }

  /** The draws of one batch are its calls' gates. */
  lemma {:induction false} BatchDraws(calls: seq<Call>, batch: nat, pending: nat, k: nat)
    requires FillsLast(calls, batch, pending, k)
    ensures ChunkDraws(calls, batch, pending)
        == Sizes(calls[..k]) + RestDraws(calls[k..], batch, pending + Ands(calls[..k]))
  {
    FirstDraw(calls, batch, pending);
    if k == 1 {
      assert calls[..1] == [calls[0]] && [calls[0]][1..] == [];
      assert Sizes([calls[0]]) == [calls[0].ands] + Sizes([]);
    } else {
      FillsTail(calls, batch, pending, k);
      BatchDraws(calls[1..], batch, pending + calls[0].ands, k - 1);
      assert calls[1..][k - 1..] == calls[k..];
      SizesTail(calls, k);
      Prepend(calls[0].ands, Sizes(calls[1..][..k - 1]), RestDraws(calls[k..], batch, pending + Ands(calls[..k])));
    }
  }

  lemma Prepend<T>(x: T, a: seq<T>, b: seq<T>)
    ensures [x] + (a + b) == ([x] + a) + b
  {
  }

  lemma SizesTail(calls: seq<Call>, k: nat)
    requires 1 <= k <= |calls|
    ensures Sizes(calls[..k]) == [calls[0].ands] + Sizes(calls[1..][..k - 1])
  {
    assert calls[..k][1..] == calls[1..][..k - 1];
  }

  lemma {:induction false} BatchChecks(calls: seq<Call>, batch: nat, pending: nat, k: nat)
    requires FillsLast(calls, batch, pending, k)
    ensures var total := pending + Ands(calls[..k]);
      && (total >= batch ==> CheckCount(calls, batch, pending) == 1 + CheckCount(calls[k..], batch, 0))
      && (total < batch ==> CheckCount(calls, batch, pending) == CheckCount(calls[k..], batch, total))
  {
    if k == 1 {
      assert calls[..1] == [calls[0]] && [calls[0]][1..] == [];
    } else {
      FillsTail(calls, batch, pending, k);
      BatchChecks(calls[1..], batch, pending + calls[0].ands, k - 1);
      assert calls[1..][k - 1..] == calls[k..];
    }
  }

  /** Takes whole calls until the limit is met or the calls run out. */
  method TakeBatch(calls: seq<Call>, batch: nat, pending: nat) returns (k: nat)
    requires calls != [] && pending < batch
    ensures FillsLast(calls, batch, pending, k) && (k < |calls| ==> pending + Ands(calls[..k]) >= batch)
  {
    var limit := batch - pending;
    var gates: nat := 0;
    k := 0;
    while k < |calls|
      invariant k <= |calls| && gates == Ands(calls[..k]) && forall m: nat | 1 <= m <= k ::
          pending + Ands(calls[..m]) < batch
      decreases |calls| - k
    {
      AndsPush(calls[..k], calls[k]);
      assert calls[..k + 1] == calls[..k] + [calls[k]];
      gates := gates + calls[k].ands;
      k := k + 1;
      if gates >= limit {
        break;
      }
    }
  }

  method DrawGates(ot: OtPool, batch: seq<Call>)
    requires ot.Valid() && ot.consumed + Ands(batch) <= ot.materialized
    modifies ot
    ensures ot.Valid() && ot.reserved == old(ot.reserved) && ot.materialized == old(ot.materialized)
    ensures ot.consumed == old(ot.consumed) + Ands(batch) && ot.draws == old(ot.draws) + Sizes(batch)
  {
    assert batch[0..] == batch;
    for j := 0 to |batch|
      invariant ot.Valid() && ot.reserved == old(ot.reserved) && ot.materialized == old(ot.materialized)
      invariant ot.consumed + Ands(batch[j..]) == old(ot.consumed) + Ands(batch)
      invariant ot.draws + Sizes(batch[j..]) == old(ot.draws) + Sizes(batch)
    {
      assert batch[j..][0] == batch[j] && batch[j..][1..] == batch[j + 1..];
      var r := ot.TryRecv(batch[j].ands);
      assert r.Ok?;
    }
  }

  /** The checks a call adds in submission order. */
  method CountChecks(batchSize: nat, andCount: nat, count: nat) returns (checks: nat)
    requires batchSize > 0 && count > 0
    ensures checks == NewChecks(batchSize, andCount, count)
  {
    var partial := andCount % batchSize;
    checks := (partial + count - 1) / batchSize;
    if partial == 0 {
      checks := checks + 1;
    }
    QuotientIsDivision(andCount, batchSize);
    QuotientIsDivision(partial + count - 1, batchSize);
  }

  class VirtualMachine {
    const config: Config
    const stack: CallStack
    const ot: OtPool
    const view: View
    var registeredGates: nat
    var registeredChecks: nat
    /** Gates executed and not yet checked. */
    var pending: nat
    /** Consistency checks performed so far. */
    ghost var checked: nat

    ghost function Value(): Vm
      reads this, stack, ot, view
    {
      Vm(view.Value(), stack.inner, registeredGates, registeredChecks, ot.reserved, ot.consumed, ot.draws)
    }

    ghost predicate Consistent()
      reads this, stack, ot
    {
      config.Valid() && stack.Valid() && ot.Valid() && pending == 0
    }

    constructor (config: Config, role: Role)
      requires config.Valid()
      ensures Consistent() && Value() == ZkSchedule.Initial(role) && this.config == config && checked == 0
          && fresh(stack) && fresh(ot) && fresh(view)
    {
      this.config := config;
      stack := new CallStack();
      ot := new OtPool();
      view := new View(role);
      registeredGates, registeredChecks, pending, checked := 0, 0, 0, 0;
    }

    /** Submits a call and pre-registers its gate and check OTs. */
    method CallRaw(ands: nat, inputs: seq<Range>, outputs: nat) returns (output: Range)
      requires Consistent()
      modifies this, stack, ot, view
      ensures Consistent() && Value() == AfterSubmit(config, old(Value()), ands, inputs, outputs)
          && checked == old(checked)
      ensures output == Range(old(view.len), old(view.len) + outputs)
    {
      output := Range(view.len, view.len + outputs);
      view.AllocOutput(outputs);
      if ands > 0 && registeredGates + ands <= config.chunkCap {
        ot.Alloc(ands);
        registeredGates := registeredGates + ands;
      }
      if ands > 0 {
        var checks := CountChecks(config.batchSize, stack.andCount, ands);
        if checks > 0 {
          ot.Alloc(checks * CHECK_OTS);
          registeredChecks := registeredChecks + checks;
        }
      }
      stack.Push(Call(ands, inputs, output));
    }

    /** Marks an input of the prover and reserves its OTs; refused marks reserve nothing. */
    method MarkProverInput(range: Range) returns (r: Result<(), ViewError>)
      requires Consistent() && range.start <= range.end
      requires MarkError(view.Value(), range).None? ==> range.end <= view.vis.len
      modifies this, ot, view
      ensures Consistent() && checked == old(checked)
      ensures r.Ok? <==> MarkError(old(view.Value()), range).None?
      ensures r.Ok? ==> Value() == AfterMark(old(Value()), range)
      ensures r.Err? ==> MarkError(old(view.Value()), range) == Some(r.error) && Value() == old(Value())
    {
      match view.role {
        case Prover => r := view.MarkPrivate(range);
        case Verifier => r := view.MarkBlind(range);
      }
      if r.Ok? {
        ot.Alloc(range.end - range.start);
      }
    }

    /** Materializes all reserved OTs, claims those of committed inputs, and flushes the view until nothing is left. */
    method Flush()
      requires config.Valid() && stack.Valid() && ot.Valid() && ot.consumed + |view.flush.commit| <= ot.reserved
      modifies this, ot, view
      ensures stack.Valid() && ot.Valid() && ot.materialized == ot.reserved
      ensures Value() == AfterFlush(old(Value())) && pending == old(pending) && checked == old(checked)
    {
      if ot.WantsFlush() {
        ot.Flush();
      }
      if view.flush.commit != {} {
        var r := ot.TryRecv(|view.flush.commit|);
        assert r.Ok?;
      } else {
        assert ot.draws == ot.draws + FlushDraws(view.Value());
      }
      FlushUntilEmpty(view);
    }

    /** Everything but the pool's draws, the view, the pending gates and the checks is as before. */
    twostate predicate OnlyRan()
      reads this, stack, ot
    {
      && stack.inner == old(stack.inner) && stack.andCount == old(stack.andCount) && ot.reserved == old(ot.reserved)
      && ot.materialized == old(ot.materialized) && registeredGates == old(registeredGates)
        && registeredChecks == old(registeredChecks)
    }

    /** Draws a check's OTs and clears the pending gates. */
    method RunCheck()
      requires ot.Valid() && ot.consumed + CHECK_OTS <= ot.materialized
      modifies this, ot
      ensures OnlyRan() && ot.Valid() && pending == 0 && checked == old(checked) + 1
      ensures ot.consumed == old(ot.consumed) + CHECK_OTS && ot.draws == old(ot.draws) + [CHECK_OTS]
    {
      var r := ot.TryRecv(CHECK_OTS);
      assert r.Ok?;
      pending := 0;
      checked := checked + 1;
    }

    /** Executes one batch of calls, and checks it if it is full. Of the draws ahead, `all`, those of later calls
        remain. */
    method RunBatch(batch: seq<Call>, ghost all: seq<nat>, ghost rest: seq<nat>)
      requires config.Valid() && ot.Valid() && ot.consumed + Total(all) <= ot.materialized
      requires all == Sizes(batch) + WithCheck(pending + Ands(batch) >= config.batchSize, rest)
      requires OutputsAllocated(batch, view.outputAll)
      modifies this, ot, view
      ensures OnlyRan() && ot.Valid() && view.Value() == OutputsSet(old(view.Value()), batch)
      ensures old(pending) + Ands(batch) >= config.batchSize ==> pending == 0 && checked == old(checked) + 1
      ensures old(pending) + Ands(batch) < config.batchSize
          ==> pending == old(pending) + Ands(batch) && checked == old(checked)
      ensures ot.draws + rest == old(ot.draws) + all && ot.consumed + Total(rest) == old(ot.consumed) + Total(all)
    {
      ghost var full := pending + Ands(batch) >= config.batchSize;
      TotalConcat(Sizes(batch), WithCheck(full, rest));
      TotalConcat([CHECK_OTS], rest);
      TotalSizes(batch);
      SingleTotal(CHECK_OTS);
      RunCalls(batch);
      if pending >= config.batchSize {
        RunCheck();
      }
    }

    /** Takes and executes the next batch. */
    method RunNext(calls: seq<Call>) returns (k: nat)
      requires config.Valid() && ot.Valid() && calls != [] && pending < config.batchSize
      requires ot.consumed + Total(ChunkDraws(calls, config.batchSize, pending)) <= ot.materialized
      requires OutputsAllocated(calls, view.outputAll)
      modifies this, ot, view
      ensures OnlyRan() && ot.Valid() && 1 <= k <= |calls| && pending < config.batchSize
          && view.Value() == OutputsSet(old(view.Value()), calls[..k])
      ensures ot.draws + ChunkDraws(calls[k..], config.batchSize, pending)
          == old(ot.draws) + ChunkDraws(calls, config.batchSize, old(pending))
      ensures ot.consumed + Total(ChunkDraws(calls[k..], config.batchSize, pending))
          == old(ot.consumed) + Total(ChunkDraws(calls, config.batchSize, old(pending)))
      ensures checked + CheckCount(calls[k..], config.batchSize, pending)
          == old(checked) + CheckCount(calls, config.batchSize, old(pending))
    {
      k := TakeBatch(calls, config.batchSize, pending);
      BatchDraws(calls, config.batchSize, pending, k);
      BatchChecks(calls, config.batchSize, pending, k);
      ghost var total := pending + Ands(calls[..k]);
      RunBatch(calls[..k], ChunkDraws(calls, config.batchSize, pending),
               ChunkDraws(calls[k..], config.batchSize, if total >= config.batchSize then 0 else total));
    }

    /** Executes a staged chunk in check batches, closing with a check of the residual partial batch. */
    method RunChunk(chunk: seq<Call>)
      requires config.Valid() && ot.Valid() && pending == 0
      requires ot.consumed + Total(ChunkDraws(chunk, config.batchSize, 0)) <= ot.materialized
      requires OutputsAllocated(chunk, view.outputAll)
      modifies this, ot, view
      ensures OnlyRan() && ot.Valid() && pending == 0 && view.Value() == OutputsSet(old(view.Value()), chunk)
      ensures ot.draws == old(ot.draws) + ChunkDraws(chunk, config.batchSize, 0)
      ensures ot.consumed == old(ot.consumed) + Total(ChunkDraws(chunk, config.batchSize, 0))
      ensures checked == old(checked) + CheckCount(chunk, config.batchSize, 0)
    {
      var calls := chunk;
      ghost var view0 := view.Value();
      while calls != []
        invariant OnlyRan() && ot.Valid() && pending < config.batchSize
        invariant OutputsAllocated(calls, view.outputAll)
        invariant OutputsSet(view.Value(), calls) == OutputsSet(view0, chunk)
        invariant ot.draws + ChunkDraws(calls, config.batchSize, pending)
            == old(ot.draws) + ChunkDraws(chunk, config.batchSize, 0)
        invariant ot.consumed + Total(ChunkDraws(calls, config.batchSize, pending))
            == old(ot.consumed) + Total(ChunkDraws(chunk, config.batchSize, 0))
        invariant checked + CheckCount(calls, config.batchSize, pending)
            == old(checked) + CheckCount(chunk, config.batchSize, 0)
        decreases |calls|
      {
        ghost var before := view.Value();
        var k := RunNext(calls);
        OutputsSplit(before, calls, k);
        OutputsKeep(before, calls[..k]);
        calls := calls[k..];
      }
      SingleTotal(CHECK_OTS);
      if pending > 0 {
        RunCheck();
      }
    }

    /** Extracts one chunk of ready calls and reserves the OTs it needs beyond those registered. */
    method Stage() returns (chunk: seq<Call>)
      requires Consistent()
      modifies this, stack, ot
      ensures Consistent() && chunk == Taken(old(stack.inner), view.Value(), config.chunkCap, 0)
          && checked == old(checked)
      ensures Value() == if chunk == [] then old(Value()) else AfterStage(config, old(Value()))
    {
      NothingTaken(stack.inner, view.Value(), config.chunkCap, 0);
      chunk := stack.ExtractIf(config.chunkCap, view.Value());
      if chunk == [] {
        return;
      }
      var gates, checks := Simulate(chunk, config.batchSize);
      var preGates, preChecks := Min(registeredGates, gates), Min(registeredChecks, checks);
      var demand := (gates - preGates) + (checks - preChecks) * CHECK_OTS;
      if demand > 0 {
        ot.Alloc(demand);
      }
      registeredGates := registeredGates - preGates;
      registeredChecks := registeredChecks - preChecks;
    }

    /** Executes one chunk: every draw is covered, the simulated check count is the number of checks performed,
        and the budget stays balanced. */
    method Execute()
      requires Consistent() && Sound(Value())
      modifies this, stack, ot, view
      ensures Consistent() && Sound(Value()) && Value() == AfterExecute(config, old(Value()))
      ensures var chunk := Taken(old(stack.inner), old(view.Value()), config.chunkCap, 0);
              checked == old(checked) + if chunk == [] then 0 else CheckCount(chunk, config.batchSize, 0)
    {
      ghost var before := Value();
      ExecuteSound(config, before);
      var chunk := Stage();
      if chunk == [] {
        return;
      }
      StageCovers(config, before);
      ChunkAllocated(config, before);
      Flush();
      RunChunk(chunk);
    }

    method RunCalls(batch: seq<Call>)
      requires ot.Valid() && ot.consumed + Ands(batch) <= ot.materialized && OutputsAllocated(batch, view.outputAll)
      modifies this, ot, view
      ensures OnlyRan() && ot.Valid() && pending == old(pending) + Ands(batch) && checked == old(checked)
          && view.Value() == OutputsSet(old(view.Value()), batch)
      ensures ot.consumed == old(ot.consumed) + Ands(batch) && ot.draws == old(ot.draws) + Sizes(batch)
    {
      DrawGates(ot, batch);
      pending := pending + Ands(batch);
      SetOutputs(view, batch);
    }
  }

  lemma {:induction false} OutputsSplit(view: State, calls: seq<Call>, k: nat)
    requires k <= |calls|
    ensures OutputsSet(view, calls) == OutputsSet(OutputsSet(view, calls[..k]), calls[k..])
  {
    if k == |calls| {
      assert calls[..k] == calls;
    } else {
      var n := |calls| - 1;
      OutputsSplit(view, calls[..n], k);
      assert calls[..n][..k] == calls[..k] && calls[..n][k..] == calls[k..][..n - k] && calls[k..][n - k] == calls[n];
    }
  }

  lemma {:induction false} NothingTaken(calls: seq<Call>, view: State, cap: nat, total: nat)
    ensures Taken(calls, view, cap, total) == [] ==> Remaining(calls, view, cap, total) == calls
  {
    if calls != [] && !(total < cap && Ready(view, calls[0])) {
      NothingTaken(calls[1..], view, cap, total);
    }
  }

  /** What is reserved after staging covers the flush and then the whole chunk. */
  lemma StageCovers(c: Config, s: Vm)
    requires Sound(s) && c.Valid()
    ensures var t, chunk := AfterStage(c, s), Taken(s.calls, s.view, c.chunkCap, 0);
            && t.consumed + |t.view.flush.commit| <= t.reserved
            && AfterFlush(t).consumed + Total(ChunkDraws(chunk, c.batchSize, 0)) <= AfterFlush(t).reserved
  {
    var t, chunk := AfterStage(c, s), Taken(s.calls, s.view, c.chunkCap, 0);
    StageSound(c, s);
    ChunkDrawsTotal(chunk, c.batchSize, 0);
    Covers(t, Ands(chunk) + CHECK_OTS * CheckCount(chunk, c.batchSize, 0));
  }

  lemma Covers(t: Vm, spare: nat)
    requires SoundWith(t, spare)
    ensures t.consumed + |t.view.flush.commit| + spare <= t.reserved
        && AfterFlush(t).consumed + spare <= AfterFlush(t).reserved
  {
    FlushUnclaimed(t.view);
  }

  lemma SingleTotal(n: nat)
    ensures Total([n]) == n
  {
    assert [n][1..] == [];
    assert Total([]) == 0;
  }

  lemma {:induction false} TotalSizes(calls: seq<Call>)
    ensures Total(Sizes(calls)) == Ands(calls)
  {
    if calls != [] {
      TotalSizes(calls[1..]);
      assert Sizes(calls)[1..] == Sizes(calls[1..]);
    }
  }

  /** Setting outputs allocates nothing. */
  lemma {:induction false} OutputsKeep(view: State, calls: seq<Call>)
    ensures OutputsSet(view, calls).outputAll == view.outputAll
  {
    if calls != [] {
      OutputsKeep(view, calls[..|calls| - 1]);
    }
  }

  /** The chunk's outputs are allocated, before and after the flush. */
  lemma ChunkAllocated(c: Config, s: Vm)
    requires Sound(s) && c.Valid()
    ensures OutputsAllocated(Taken(s.calls, s.view, c.chunkCap, 0), Settled(s.view).outputAll)
  {
    TakenFrom(s.calls, s.view, c.chunkCap, 0, s.view.outputAll);
    SettledFacts(s.view);
  }

  /** Sets the outputs of the calls; none is refused. */
  method SetOutputs(view: View, calls: seq<Call>)
    requires OutputsAllocated(calls, view.outputAll)
    modifies view
    ensures view.Value() == OutputsSet(old(view.Value()), calls)
  {
    ghost var start := view.Value();
    for i := 0 to |calls|
      invariant view.Value() == OutputsSet(start, calls[..i])
    {
      assert calls[..i + 1][..i] == calls[..i];
      OutputsKeep(start, calls[..i]);
      var r := view.SetOutput(calls[i].output);
      assert r.Ok?;
    }
    assert calls[..|calls|] == calls;
  }

  /** Flushes until the flush view is empty. */
  method FlushUntilEmpty(view: View)
    modifies view
    ensures view.Value() == Settled(old(view.Value()))
  {
    ghost var start := view.Value();
    while !view.flush.IsEmpty()
      invariant Settled(view.Value()) == Settled(start)
      decreases if view.flush.commit != {} then 2 else if view.flush.prove != {} then 1 else 0
    {
      FlushProgress(view.Value());
      view.CompleteFlush(view.flush);
    }
  }

  lemma FlushProgress(view: State)
    requires !view.flush.IsEmpty()
    ensures Settled(Flushed(view, view.flush)) == Settled(view)
    ensures Flushed(view, view.flush).flush.commit == {}
    ensures view.flush.commit == {} ==> Flushed(view, view.flush).flush.prove == {}
  {
    var next := Flushed(view, view.flush);
    if !next.flush.IsEmpty() {
      assert Flushed(next, next.flush).flush.IsEmpty();
    }
  }
}
