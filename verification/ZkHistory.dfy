/** What the zk VM's memory view holds, as a function of the steps that were taken. */
module ZkHistory {
  import opened Histories
  import opened Results
  import opened Visibility
  import opened ZkView

  // What the steps say.

  function MadePublic(step: Step): set<nat> {
    if step.MarkPublic? then step.r.Cells() else {}
  }

  function MadePrivate(step: Step): set<nat> {
    if step.MarkPrivate? then step.r.Cells() else {}
  }

  function MadeBlind(step: Step): set<nat> {
    if step.MarkBlind? then step.r.Cells() else {}
  }

  function Assigned(step: Step): set<nat> {
    if step.Assign? then step.r.Cells() else {}
  }

  function Computed(step: Step): set<nat> {
    if step.SetOutput? then step.r.Cells() else {}
  }

  function Committed(step: Step): set<nat> {
    if step.Commit? then step.r.Cells() else {}
  }

  function ToDecode(step: Step): set<nat> {
    if step.Decode? then step.r.Cells() else {}
  }

  /** How many cells the steps allocated. */
  function Length(steps: seq<Step>): nat {
    if steps == [] then 0
    else
      var last := steps[|steps| - 1];
      Length(steps[..|steps| - 1]) + if last.AllocInput? || last.AllocOutput? then last.n else 0
  }

  /** The cells allocated as inputs, or as outputs. */
  function AllocatedAs(steps: seq<Step>, output: bool): set<nat> {
    if steps == [] then {}
    else
      var before, last := steps[..|steps| - 1], steps[|steps| - 1];
      var start := Length(before);
      AllocatedAs(before, output) +
      if (output && last.AllocOutput?) || (!output && last.AllocInput?) then Range(start, start + last.n).Cells()
      else {}
  }

  /** The inputs known to the prover alone: those the prover marked private, or the verifier blind. */
  function Secret(role: Role, steps: seq<Step>): set<nat> {
    if role.Prover? then Touched(steps, MadePrivate) else Touched(steps, MadeBlind)
  }

  function Marked(steps: seq<Step>): set<nat> {
    Touched(steps, MadePublic) + Touched(steps, MadePrivate) + Touched(steps, MadeBlind)
  }

  // The state after them.

  /** The state of a new view after the steps, if all of them are accepted. */
  function StateAfter(role: Role, steps: seq<Step>): Option<State> {
    if steps == [] then Some(ZkView.Initial(role))
    else
      match StateAfter(role, steps[..|steps| - 1])
      case None => None
      case Some(s) => if Accepts(s, steps[|steps| - 1]) then Some(After(s, steps[|steps| - 1])) else None
  }

  ghost predicate VisibilityOf(steps: seq<Step>, vis: VisibilityView) {
    && vis.public == Touched(steps, MadePublic) && vis.priv == Touched(steps, MadePrivate)
    && vis.blind == Touched(steps, MadeBlind)
  }

  ghost predicate AllocationOf(steps: seq<Step>, s: State) {
    s.len == Length(steps) && s.inputAll == AllocatedAs(steps, false) && s.outputAll == AllocatedAs(steps, true)
  }

  ghost predicate ProgressOf(steps: seq<Step>, s: State) {
    && s.inputAssigned == Touched(steps, Assigned) && s.outputComplete == Touched(steps, Computed)
    && s.decodeAll == Touched(steps, ToDecode)
  }

  /** Every set of the view is what the steps say, whatever their order: only what was flushed when is left open. */
  ghost predicate Determined(role: Role, steps: seq<Step>, s: State) {
    s.role == role && VisibilityOf(steps, s.vis) && AllocationOf(steps, s) && ProgressOf(steps, s)
  }

  ghost predicate CommitsKept(role: Role, steps: seq<Step>, s: State) {
    && Touched(steps, Committed) <= Marked(steps) && Marked(steps) !! s.vis.uninit
    && s.inputComplete + s.flush.commit
       == Touched(steps, Committed) * (Touched(steps, MadePublic) + Secret(role, steps))
  }

  /** What is decoded or about to be is exactly what is marked for decoding and ready. */
  ghost predicate DecodesExact(s: State) {
    s.decodeComplete + s.flush.prove == s.decodeAll * (s.outputComplete + s.inputComplete * ProverInputs(s))
  }

  lemma AllocatedNext(steps: seq<Step>, step: Step)
    ensures Length(steps + [step])
         == Length(steps) + if step.AllocInput? || step.AllocOutput? then step.n else 0
    ensures AllocatedAs(steps + [step], true)
         == AllocatedAs(steps, true)
            + if step.AllocOutput? then Range(Length(steps), Length(steps) + step.n).Cells() else {}
    ensures AllocatedAs(steps + [step], false)
         == AllocatedAs(steps, false)
            + if step.AllocInput? then Range(Length(steps), Length(steps) + step.n).Cells() else {}
  {
    assert (steps + [step])[..|steps|] == steps;
  }

  lemma MarkedNext(steps: seq<Step>, step: Step)
    ensures Touched(steps + [step], MadePublic) == Touched(steps, MadePublic) + MadePublic(step)
    ensures Touched(steps + [step], MadePrivate) == Touched(steps, MadePrivate) + MadePrivate(step)
    ensures Touched(steps + [step], MadeBlind) == Touched(steps, MadeBlind) + MadeBlind(step)
  {
    TouchedNext(steps, step, MadePublic);
    TouchedNext(steps, step, MadePrivate);
    TouchedNext(steps, step, MadeBlind);
  }

  predicate Marks(step: Step) {
    step.MarkPublic? || step.MarkPrivate? || step.MarkBlind?
  }

  lemma MarkedForDecoding(s: State, r: Range)
    requires s.decodeComplete <= s.decodeAll
    ensures var t := Decoded(s, r);
            t == s.(decodeAll := s.decodeAll + r.Cells(), flush := t.flush)
  {
    var undecoded := r.Cells() - s.decodeComplete;
    if undecoded == {} {
      forall i | i in r.Cells() ensures i in s.decodeAll {
        assert i !in undecoded;
      }
      assert s.decodeAll + r.Cells() == s.decodeAll;
    } else {
      assert s.decodeAll + undecoded == s.decodeAll + r.Cells();
    }
  }

  lemma VisibilityStep(steps: seq<Step>, s: State, step: Step)
    requires Valid(s) && VisibilityOf(steps, s.vis) && Accepts(s, step)
    ensures VisibilityOf(steps + [step], After(s, step).vis)
  {
    MarkedNext(steps, step);
    if Marks(step) {
      FreshRange(s.vis, step.r);
    }
  }

  lemma AllocationStep(steps: seq<Step>, s: State, step: Step)
    requires AllocationOf(steps, s) && Accepts(s, step)
    ensures AllocationOf(steps + [step], After(s, step))
  {
    AllocatedNext(steps, step);
  }

  lemma ProgressStep(steps: seq<Step>, s: State, step: Step)
    requires ProgressOf(steps, s) && s.decodeComplete <= s.decodeAll && Accepts(s, step)
    ensures ProgressOf(steps + [step], After(s, step))
  {
    TouchedNext(steps, step, Assigned);
    TouchedNext(steps, step, Computed);
    TouchedNext(steps, step, ToDecode);
    if step.Decode? {
      MarkedForDecoding(s, step.r);
    }
  }

  lemma DeterminedStep(role: Role, steps: seq<Step>, s: State, step: Step)
    requires Valid(s) && Determined(role, steps, s) && s.decodeComplete <= s.decodeAll && Accepts(s, step)
    ensures Determined(role, steps + [step], After(s, step))
  {
    VisibilityStep(steps, s, step);
    AllocationStep(steps, s, step);
    ProgressStep(steps, s, step);
  }

  lemma CommitsMark(role: Role, steps: seq<Step>, s: State, step: Step)
    requires Valid(s) && Determined(role, steps, s) && CommitsKept(role, steps, s) && Accepts(s, step) && Marks(step)
    ensures CommitsKept(role, steps + [step], After(s, step))
  {
    MarkedNext(steps, step);
    TouchedNext(steps, step, Committed);
    FreshRange(s.vis, step.r);
    assert Touched(steps, Committed) !! step.r.Cells();
  }

  lemma CommitCells(steps: seq<Step>, s: State, r: Range)
    requires Valid(s) && VisibilityOf(steps, s.vis) && Accepts(s, Commit(r))
    ensures r.Cells() <= Marked(steps)
  {
    forall i | i in r.Cells() ensures i in Marked(steps) {
      assert i in Range(0, s.vis.len).Cells();
    }
  }

  lemma MoreCommitted(committed: set<nat>, public: set<nat>, secret: set<nat>, complete: set<nat>, next: set<nat>,
                      c: set<nat>)
    requires complete + next == committed * (public + secret)
    ensures (complete + c * public) + (next + c * secret) == (committed + c) * (public + secret)
  {
    var l, r := (complete + c * public) + (next + c * secret), (committed + c) * (public + secret);
    forall i | i in l ensures i in r {
      assert i in complete + next || i in c;
    }
    forall i | i in r ensures i in l {
      assert i in committed * (public + secret) || i in c;
    }
  }

  lemma CommitsCommit(role: Role, steps: seq<Step>, s: State, r: Range)
    requires Valid(s) && Determined(role, steps, s) && CommitsKept(role, steps, s) && Accepts(s, Commit(r))
    ensures CommitsKept(role, steps + [Commit(r)], After(s, Commit(r)))
  {
    MarkedNext(steps, Commit(r));
    TouchedNext(steps, Commit(r), Committed);
    CommitCells(steps, s, r);
    MoreCommitted(Touched(steps, Committed), s.vis.public, Secret(role, steps), s.inputComplete, s.flush.commit,
                  r.Cells());
  }

  lemma CommitsAlloc(role: Role, steps: seq<Step>, s: State, step: Step)
    requires Valid(s) && Determined(role, steps, s) && CommitsKept(role, steps, s) && Accepts(s, step)
    requires step.AllocInput? || step.AllocOutput?
    ensures CommitsKept(role, steps + [step], After(s, step))
  {
    MarkedNext(steps, step);
    TouchedNext(steps, step, Committed);
    forall i | i in Marked(steps) ensures i !in Range(s.vis.len, s.vis.len + step.n).Cells() {
      assert i in Range(0, s.vis.len).Cells();
    }
  }

  lemma CommitsOther(role: Role, steps: seq<Step>, s: State, step: Step)
    requires Determined(role, steps, s) && CommitsKept(role, steps, s) && Accepts(s, step)
    requires step.Assign? || step.SetOutput? || step.Decode? || step.CompleteFlush?
    ensures CommitsKept(role, steps + [step], After(s, step))
  {
    MarkedNext(steps, step);
    TouchedNext(steps, step, Committed);
  }

  lemma CommitsStep(role: Role, steps: seq<Step>, s: State, step: Step)
    requires Valid(s) && Determined(role, steps, s) && CommitsKept(role, steps, s) && Accepts(s, step)
    ensures CommitsKept(role, steps + [step], After(s, step))
  {
    if Marks(step) {
      CommitsMark(role, steps, s, step);
    } else if step.Commit? {
      CommitsCommit(role, steps, s, step.r);
    } else if step.AllocInput? || step.AllocOutput? {
      CommitsAlloc(role, steps, s, step);
    } else {
      CommitsOther(role, steps, s, step);
    }
  }

  lemma ExactDecode(s: State, r: Range)
    requires Valid(s) && DecodesExact(s)
    ensures DecodesExact(Decoded(s, r))
  {
    var t := Decoded(s, r);
    var ready := s.outputComplete + s.inputComplete * ProverInputs(s);
    forall i | i in t.decodeComplete + t.flush.prove ensures i in t.decodeAll * ready {
      if i !in s.decodeComplete + s.flush.prove && i in s.inputComplete {
        assert i in Range(0, s.len).Cells();
      }
    }
    forall i | i in t.decodeAll * ready ensures i in t.decodeComplete + t.flush.prove {
      if i in s.decodeAll {
        assert i in s.decodeAll * ready;
      } else if i in s.outputComplete {
        assert i in s.outputAll;
      } else {
        assert i in s.inputAll && i !in s.decodeComplete;
      }
    }
  }

  lemma ExactFlush(s: State)
    requires Valid(s) && DecodesExact(s)
    ensures DecodesExact(Flushed(s, s.flush))
  {
    var t := Flushed(s, s.flush);
    var ready := s.outputComplete + s.inputComplete * ProverInputs(s);
    assert t.outputComplete + t.inputComplete * ProverInputs(t) == ready + s.flush.commit;
    assert s.decodeAll * (ready + s.flush.commit) == s.decodeAll * ready + s.decodeAll * s.flush.commit;
  }

  lemma ExactOutput(s: State, r: Range)
    requires DecodesExact(s)
    ensures DecodesExact(OutputAfter(s, r))
  {
    var ready := s.outputComplete + s.inputComplete * ProverInputs(s);
    var t := OutputAfter(s, r);
    assert t.outputComplete + t.inputComplete * ProverInputs(t) == ready + r.Cells();
    assert s.decodeAll * (ready + r.Cells()) == s.decodeAll * ready + r.Cells() * s.decodeAll;
  }

  lemma ExactMark(s: State, step: Step)
    requires Valid(s) && DecodesExact(s) && Accepts(s, step)
        && (step.MarkPublic? || step.MarkPrivate? || step.MarkBlind?)
    ensures DecodesExact(After(s, step))
  {
    FreshRange(s.vis, step.r);
    assert s.inputComplete !! step.r.Cells();
  }

  lemma ExactStep(s: State, step: Step)
    requires Valid(s) && DecodesExact(s) && Accepts(s, step)
    ensures DecodesExact(After(s, step))
  {
    match step
    case MarkPublic(_) => ExactMark(s, step);
    case MarkPrivate(_) => ExactMark(s, step);
    case MarkBlind(_) => ExactMark(s, step);
    case Decode(r) => ExactDecode(s, r);
    case Commit(r) =>
      assert r.Cells() * s.vis.public !! ProverInputs(s);
    case SetOutput(r) => ExactOutput(s, r);
    case CompleteFlush => ExactFlush(s);
    case _ =>
  }

  /** After any accepted steps, in any order, the view is what the steps say. */
  lemma {:induction false} HistoryDetermines(role: Role, steps: seq<Step>, s: State)
    requires StateAfter(role, steps) == Some(s)
    ensures Valid(s) && Determined(role, steps, s) && CommitsKept(role, steps, s) && DecodesExact(s)
    decreases |steps|
  {
    if steps == [] {
      InitialValid(role);
    } else {
      var before, step := steps[..|steps| - 1], steps[|steps| - 1];
      var t := StateAfter(role, before).value;
      HistoryDetermines(role, before, t);
      LastStep(steps);
      StepValid(t, step);
      DeterminedStep(role, before, t, step);
      CommitsStep(role, before, t, step);
      ExactStep(t, step);
    }
  }

  // What the steps lead to.

  /** The view after flushing until nothing is left to flush. */
  function FlushedOut(s: State): State {
    Flushed(Flushed(s, s.flush), Flushed(s, s.flush).flush)
  }

  /** After any accepted steps and two flushes nothing is left to flush; what is complete is exactly what was committed
      and is public or the prover's, and what is decoded is exactly what was marked for decoding and was computed, or
      committed by the prover. */
  lemma FlushedHistory(role: Role, steps: seq<Step>, s: State)
    requires StateAfter(role, steps) == Some(s)
    ensures var t := FlushedOut(s);
      && StateAfter(role, steps + [CompleteFlush, CompleteFlush]) == Some(t) && t.flush.IsEmpty()
      && t.inputComplete == Touched(steps, Committed) * (Touched(steps, MadePublic) + Secret(role, steps))
      && t.outputComplete == Touched(steps, Computed)
      && t.decodeComplete
         == Touched(steps, ToDecode) * (Touched(steps, Computed) + Touched(steps, Committed) * Secret(role, steps))
  {
    var u, t := Flushed(s, s.flush), FlushedOut(s);
    var more := steps + [CompleteFlush];
    FlushAccepted(role, steps, s);
    FlushAccepted(role, more, u);
    FlushSaysNothing(role, steps);
    FlushSaysNothing(role, more);
    FlushTouchesNothing(steps);
    FlushTouchesNothing(more);
    assert steps + [CompleteFlush, CompleteFlush] == more + [CompleteFlush];
    HistoryDetermines(role, steps, s);
    HistoryDetermines(role, more + [CompleteFlush], t);
    DecodedSecret(t.decodeAll, t.outputComplete, t.inputComplete, Touched(steps, Committed),
                  Touched(steps, MadePublic), Secret(role, steps));
  }

  lemma FlushSaysNothing(role: Role, steps: seq<Step>)
    ensures var more := steps + [CompleteFlush];
      && Touched(more, MadePublic) == Touched(steps, MadePublic) && Secret(role, more) == Secret(role, steps)
  {
    MarkedNext(steps, CompleteFlush);
  }

  lemma FlushTouchesNothing(steps: seq<Step>)
    ensures var more := steps + [CompleteFlush];
      && Touched(more, Committed) == Touched(steps, Committed) && Touched(more, Computed) == Touched(steps, Computed)
      && Touched(more, ToDecode) == Touched(steps, ToDecode)
  {
    TouchedNext(steps, CompleteFlush, Committed);
    TouchedNext(steps, CompleteFlush, Computed);
    TouchedNext(steps, CompleteFlush, ToDecode);
  }

  lemma FlushAccepted(role: Role, steps: seq<Step>, s: State)
    requires StateAfter(role, steps) == Some(s)
    ensures StateAfter(role, steps + [CompleteFlush]) == Some(Flushed(s, s.flush))
  {
    assert (steps + [CompleteFlush])[..|steps|] == steps;
  }

  lemma DecodedSecret(marked: set<nat>, computed: set<nat>, complete: set<nat>, committed: set<nat>, public: set<nat>,
                      secret: set<nat>)
    requires complete == committed * (public + secret) && public !! secret
    ensures marked * (computed + complete * secret) == marked * (computed + committed * secret)
  {
    assert complete * secret == committed * secret;
  }

  /** The steps a party of the VM takes: the prover marks nothing blind and the verifier nothing private. */
  predicate OfTheVm(role: Role, steps: seq<Step>) {
    forall k | 0 <= k < |steps| :: if role.Prover? then !steps[k].MarkBlind? else !steps[k].MarkPrivate?
  }

  /** In the VM every committed range is complete once flushed: the other party marks no input its own secret. */
  lemma CommitCompletes(role: Role, steps: seq<Step>, s: State, k: nat)
    requires StateAfter(role, steps) == Some(s) && k < |steps| && steps[k].Commit? && OfTheVm(role, steps)
    ensures steps[k].r.Cells() <= FlushedOut(s).inputComplete
  {
    HistoryDetermines(role, steps, s);
    FlushedHistory(role, steps, s);
    TouchedBy(steps, Committed, k);
    TouchedNothing(steps, if role.Prover? then MadeBlind else MadePrivate);
  }

  /** A range that was computed, and marked for decoding before or after, is decoded once flushed. */
  lemma OutputDecoded(role: Role, steps: seq<Step>, s: State, j: nat, k: nat)
    requires StateAfter(role, steps) == Some(s) && j < |steps| && k < |steps|
    requires steps[j].SetOutput? && steps[k].Decode?
    ensures steps[j].r.Cells() * steps[k].r.Cells() <= FlushedOut(s).decodeComplete
  {
    FlushedHistory(role, steps, s);
    TouchedBy(steps, Computed, j);
    TouchedBy(steps, ToDecode, k);
  }

  /** So is an input of the prover that was committed. */
  lemma InputDecoded(role: Role, steps: seq<Step>, s: State, j: nat, k: nat)
    requires StateAfter(role, steps) == Some(s) && j < |steps| && k < |steps|
    requires steps[j].Commit? && steps[k].Decode?
    ensures steps[j].r.Cells() * steps[k].r.Cells() * Secret(role, steps) <= FlushedOut(s).decodeComplete
  {
    FlushedHistory(role, steps, s);
    TouchedBy(steps, Committed, j);
    TouchedBy(steps, ToDecode, k);
  }

  /** Which steps are accepted, in terms of the steps before: a visibility is set once and only on inputs, values are
      assigned to what the party sees, only outputs are computed, and a range is committed when all of it has a
      visibility, what the party sees of it was assigned, and none of it is complete. */
  predicate Acceptable(steps: seq<Step>, complete: set<nat>, step: Step) {
    match step
    case MarkPublic(r) => Markable(steps, r)
    case MarkPrivate(r) => Markable(steps, r)
    case MarkBlind(r) => Markable(steps, r)
    case Assign(r) =>
      r.Cells() <= Touched(steps, MadePublic) + Touched(steps, MadePrivate) && r.Cells() !! AllocatedAs(steps, true)
    case SetOutput(r) => r.Cells() <= AllocatedAs(steps, true)
    case Commit(r) =>
      && r.end <= Length(steps) && r.Cells() <= Marked(steps) && r.Cells() !! AllocatedAs(steps, true)
      && r.Cells() !! complete
      && r.Cells() * (Touched(steps, MadePublic) + Touched(steps, MadePrivate)) <= Touched(steps, Assigned)
    case _ => true
  }

  predicate Markable(steps: seq<Step>, r: Range) {
    r.end <= Length(steps) && r.Cells() !! Marked(steps) && r.Cells() !! AllocatedAs(steps, true)
  }

  lemma MarkAccepted(role: Role, steps: seq<Step>, s: State, r: Range)
    requires Valid(s) && Determined(role, steps, s)
    ensures MarkError(s, r).None? && r.end <= s.vis.len <==> Markable(steps, r)
  {
    if r.end <= s.vis.len {
      if s.vis.IsSetAny(r) {
        var i :| i in Range(r.start, r.end).Cells() - s.vis.uninit;
        assert i in Range(0, s.vis.len).Cells() && i in r.Cells() * Marked(steps);
      } else {
        FreshRange(s.vis, r);
      }
    }
  }

  lemma CommitAccepted(role: Role, steps: seq<Step>, s: State, r: Range)
    requires Valid(s) && Determined(role, steps, s)
    ensures CommitError(s, r).None? <==> Acceptable(steps, s.inputComplete, Commit(r))
  {
    if r.end <= s.vis.len {
      assert r.Cells() <= Range(0, s.vis.len).Cells();
      assert r.Cells() !! s.vis.uninit <==> r.Cells() <= Marked(steps);
    }
  }

  lemma AssignAccepted(role: Role, steps: seq<Step>, s: State, r: Range)
    requires Valid(s) && Determined(role, steps, s)
    ensures AssignError(s, r).None? <==> Acceptable(steps, s.inputComplete, Assign(r))
  {
  }

  lemma OtherAccepted(role: Role, steps: seq<Step>, s: State, step: Step)
    requires Determined(role, steps, s) && !step.MarkPublic? && !step.MarkPrivate? && !step.MarkBlind?
    requires !step.Assign? && !step.Commit?
    ensures Accepts(s, step) <==> Acceptable(steps, s.inputComplete, step)
  {
  }

  lemma AcceptedIff(role: Role, steps: seq<Step>, s: State, step: Step)
    requires StateAfter(role, steps) == Some(s)
    ensures Accepts(s, step) <==> Acceptable(steps, s.inputComplete, step)
  {
    HistoryDetermines(role, steps, s);
    match step
    case MarkPublic(r) => MarkAccepted(role, steps, s, r);
    case MarkPrivate(r) => MarkAccepted(role, steps, s, r);
    case MarkBlind(r) => MarkAccepted(role, steps, s, r);
    case Commit(r) => CommitAccepted(role, steps, s, r);
    case Assign(r) => AssignAccepted(role, steps, s, r);
    case _ => OtherAccepted(role, steps, s, step);
  }
}
