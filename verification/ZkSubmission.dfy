/** Registration while calls are submitted: what is reserved early covers what is drawn later. */
module ZkSubmission {
  import opened Bits
  import opened Visibility
  import opened ZkView
  import opened ZkSchedule

  /** `a / b`, rounded up. */
  function Ceil(a: nat, b: nat): nat
    requires b > 0
  {
    (a + b - 1) / b
  }

  lemma CeilUnique(a: nat, b: nat, q: nat, r: nat)
    requires b > 0 && a == b * q + r && r < b
    ensures Ceil(a, b) == if r == 0 then q else q + 1
  {
    if r == 0 {
      DivModUnique(a + b - 1, b, q, b - 1);
    } else {
      assert b * (q + 1) == b * q + b;
      DivModUnique(a + b - 1, b, q + 1, r - 1);
    }
  }

  lemma CeilMonotone(a: nat, a': nat, b: nat)
    requires b > 0 && a <= a'
    ensures Ceil(a, b) <= Ceil(a', b)
  {
    var x, y := a + b - 1, a' + b - 1;
    assert x == b * (x / b) + x % b && y == b * (y / b) + y % b;
    if x / b > y / b {
      MulMonotone(b, y / b + 1, x / b);
      assert false;
    }
  }

  lemma CeilNext(a: nat, b: nat)
    requires b > 0
    ensures Ceil(a + b, b) == Ceil(a, b) + 1
  {
    var q, r := a / b, a % b;
    assert b * (q + 1) == b * q + b;
    CeilUnique(a, b, q, r);
    CeilUnique(a + b, b, q + 1, r);
  }

  /** Cutting `a + count` into batches: `a` fills `q` of them and `p` more, and `p + count - 1` fills `q2` and `p2`
      more. */
  lemma CeilSum(a: nat, count: nat, b: nat, q: nat, p: nat, q2: nat, p2: nat)
    requires b > 0 && count > 0 && p < b && p2 < b && a == b * q + p && p + count - 1 == b * q2 + p2
    ensures Ceil(a, b) + q2 + (if p == 0 then 1 else 0) == Ceil(a + count, b)
  {
    CeilUnique(a, b, q, p);
    assert b * (q + q2) == b * q + b * q2;
    if p2 == b - 1 {
      assert b * (q + q2 + 1) == b * (q + q2) + b;
      CeilUnique(a + count, b, q + q2 + 1, 0);
    } else {
      CeilUnique(a + count, b, q + q2, p2 + 1);
    }
  }

  /** The checks a submission registers are those that bring the total to one per started batch. */
  lemma NewChecksIsStep(batch: nat, ands: nat, count: nat)
    requires batch > 0 && count > 0
    ensures Ceil(ands, batch) + NewChecks(batch, ands, count) == Ceil(ands + count, batch)
  {
    var p := Remainder(ands, batch);
    DividedUp(ands, batch);
    DividedUp(p + count - 1, batch);
    CeilSum(ands, count, batch, Quotient(ands, batch), p, Quotient(p + count - 1, batch),
            Remainder(p + count - 1, batch));
  }

  lemma {:induction false} DividedUp(a: nat, b: nat)
    requires b > 0
    ensures a == b * Quotient(a, b) + Remainder(a, b) && Remainder(a, b) < b
  {
    if a >= b {
      DividedUp(a - b, b);
      assert b * (Quotient(a - b, b) + 1) == b * Quotient(a - b, b) + b;
    }
  }

  /** A submitted call: its number of AND gates, its inputs and the length of its output. */
  datatype Submission = Submission(ands: nat, inputs: seq<Range>, outputs: nat)

  function SubmitAll(c: Config, s: Vm, subs: seq<Submission>): Vm
    requires c.Valid()
  {
    if subs == [] then s
    else
      var last := subs[|subs| - 1];
      AfterSubmit(c, SubmitAll(c, s, subs[..|subs| - 1]), last.ands, last.inputs, last.outputs)
  }

  /** With nothing registered or queued. */
  predicate Bare(s: Vm) {
    s.calls == [] && s.gates == 0 && s.checks == 0
  }

  /** Submissions register one check for every started batch of the whole stack, and never more gates than the chunk
      window; and all gates, as long as all of them fit the window. */
  lemma {:induction false} SubmissionsRegister(c: Config, s: Vm, subs: seq<Submission>)
    requires c.Valid() && Bare(s)
    ensures var t := SubmitAll(c, s, subs);
      && t.checks == Ceil(Ands(t.calls), c.batchSize) && t.gates <= c.chunkCap
      && (Ands(t.calls) <= c.chunkCap ==> t.gates == Ands(t.calls))
      && t.reserved == s.reserved + t.gates + t.checks * CHECK_OTS
  {
    if subs == [] {
      CeilUnique(0, c.batchSize, 0, 0);
    } else {
      var before, last := subs[..|subs| - 1], subs[|subs| - 1];
      var t := SubmitAll(c, s, before);
      SubmissionsRegister(c, s, before);
      SubmitRegisters(c, t, last.ands, last.inputs, last.outputs);
    }
  }

  lemma SubmitRegisters(c: Config, t: Vm, ands: nat, inputs: seq<Range>, outputs: nat)
    requires c.Valid() && t.checks == Ceil(Ands(t.calls), c.batchSize) && t.gates <= c.chunkCap
    requires Ands(t.calls) <= c.chunkCap ==> t.gates == Ands(t.calls)
    ensures var u := AfterSubmit(c, t, ands, inputs, outputs);
      && Ands(u.calls) == Ands(t.calls) + ands
      && u.checks == Ceil(Ands(u.calls), c.batchSize) && t.gates <= u.gates <= c.chunkCap
      && (Ands(u.calls) <= c.chunkCap ==> u.gates == Ands(u.calls))
      && u.reserved == t.reserved + (u.gates - t.gates) + (u.checks - t.checks) * CHECK_OTS
  {
    AndsPush(t.calls, NewCall(t.view, ands, inputs, outputs));
    if ands > 0 {
      NewChecksIsStep(c.batchSize, Ands(t.calls), ands);
    }
  }

  /** Executing calls triggers at most one check for every started batch of gates. */
  lemma {:induction false} CheckCountBound(calls: seq<Call>, batch: nat, pending: nat)
    requires batch > 0
    ensures CheckCount(calls, batch, pending) <= Ceil(pending + Ands(calls), batch)
  {
    if calls == [] {
      if pending > 0 {
        CeilMonotone(1, pending, batch);
        CeilNext(0, batch);
        CeilMonotone(0, 1, batch);
        OneBatch(batch);
      }
    } else if pending + calls[0].ands >= batch {
      var rest := Ands(calls[1..]);
      CheckCountBound(calls[1..], batch, 0);
      CeilNext(rest, batch);
      CeilMonotone(rest + batch, pending + calls[0].ands + rest, batch);
    } else {
      CheckCountBound(calls[1..], batch, pending + calls[0].ands);
    }
  }

  lemma OneBatch(batch: nat)
    requires batch > 0
    ensures Ceil(1, batch) == 1
  {
    if batch == 1 {
      CeilUnique(1, 1, 1, 0);
    } else {
      CeilUnique(1, batch, 0, 1);
    }
  }

  /** If everything submitted fits the chunk window, executing any part of it, in whatever state the memory is by then,
      reserves nothing further: the offline registration covers it. */
  lemma RegistrationSuffices(c: Config, s: Vm, subs: seq<Submission>, view: State)
    requires c.Valid() && Bare(s) && Ands(SubmitAll(c, s, subs).calls) <= c.chunkCap
    ensures var t := SubmitAll(c, s, subs).(view := view);
            AfterStage(c, t).reserved == t.reserved
  {
    var t := SubmitAll(c, s, subs).(view := view);
    SubmissionsRegister(c, s, subs);
    var chunk := Taken(t.calls, view, c.chunkCap, 0);
    ExtractionSplits(t.calls, view, c.chunkCap, 0);
    CheckCountBound(chunk, c.batchSize, 0);
    CeilMonotone(Ands(chunk), Ands(t.calls), c.batchSize);
  }

  /** Over every run no more gates are registered than the chunk window holds. */
  lemma {:induction false} GatesWithinWindow(c: Config, p: Vm, v: Vm, run: seq<PairEvent>, p': Vm, v': Vm)
    requires c.Valid() && p.gates <= c.chunkCap && v.gates <= c.chunkCap && ZkSchedule.Reaches(c, p, v, run, p', v')
    ensures p'.gates <= c.chunkCap && v'.gates <= c.chunkCap
    decreases |run|
  {
    if run != [] {
      var (q, w) := PairNext(c, p, v, run[0]);
      GatesWithinWindow(c, q, w, run[1..], p', v');
    }
  }

  /** Submitting, flushing and executing are never refused: any order of them is a run. */
  lemma {:induction false} RunsExist(c: Config, p: Vm, v: Vm, run: seq<PairEvent>) returns (p': Vm, v': Vm)
    requires c.Valid()
    requires forall k | 0 <= k < |run| :: run[k].Both? && (run[k].e.Submit? || run[k].e.Flush? || run[k].e.Execute?)
    ensures ZkSchedule.Reaches(c, p, v, run, p', v')
    decreases |run|
  {
    if run == [] {
      p', v' := p, v;
    } else {
      var (q, w) := PairNext(c, p, v, run[0]);
      p', v' := RunsExist(c, q, w, run[1..]);
    }
  }

  // What executing a chunk completes.

  lemma {:induction false} OutputsSetExactly(view: State, calls: seq<Call>, i: nat)
    ensures i in OutputsSet(view, calls).outputComplete
        <==> i in view.outputComplete || exists k :: 0 <= k < |calls| && calls[k].output.Holds(i)
  {
    if calls != [] {
      var n := |calls| - 1;
      OutputsSetExactly(view, calls[..n], i);
      if i in OutputsSet(view, calls).outputComplete && i !in view.outputComplete && !calls[n].output.Holds(i) {
        var k :| 0 <= k < n && calls[..n][k].output.Holds(i);
        assert calls[k].output.Holds(i);
      }
      if k :| 0 <= k < |calls| && calls[k].output.Holds(i) {
        assert k < n ==> calls[..n][k].output.Holds(i);
      }
    }
  }

  lemma SettledKeepsOutputs(view: State)
    ensures Settled(view).outputComplete == view.outputComplete
  {
  }

  /** Executing completes the outputs of the chunk's calls and no others. */
  lemma ExecuteCompletes(c: Config, s: Vm, chunk: seq<Call>, i: nat)
    requires c.Valid() && chunk == Taken(s.calls, s.view, c.chunkCap, 0)
    ensures (i in AfterExecute(c, s).view.outputComplete)
        <==> (i in s.view.outputComplete || exists k :: 0 <= k < |chunk| && chunk[k].output.Holds(i))
  {
    if chunk != [] {
      SettledKeepsOutputs(s.view);
      OutputsSetExactly(Settled(s.view), chunk, i);
      assert AfterExecute(c, s).view == OutputsSet(Settled(s.view), chunk);
    }
  }

  /** A check draws one OT per bit of a block, which is what the correlation of a check takes. */
  lemma CheckDraws()
    ensures CHECK_OTS == BLOCK_BITS
  {
  }
}
