/** The zero-knowledge VM's memory view: what each party expects the next flush to hold. */
module ZkView {
  import opened Results
  import opened Visibility

  datatype Role = Prover | Verifier

  /** Ranges the prover is to commit and to prove. */
  datatype FlushView = FlushView(commit: set<nat>, prove: set<nat>)
  {
    predicate IsEmpty() {
      commit == {} && prove == {}
    }
  }

  datatype ViewError =
    | VisibilityAlreadySet | VisibilityOutput | VisibilityAssign | OutputAssign | NotOutput
    | VisibilityNotSet | OutputCommit | AlreadyCommitted | NotAssigned

  datatype State = State(role: Role, len: nat, vis: VisibilityView,
                         inputAssigned: set<nat>, inputComplete: set<nat>, inputAll: set<nat>,
                         outputComplete: set<nat>, outputAll: set<nat>,
                         decodeComplete: set<nat>, decodeAll: set<nat>, flush: FlushView)

  /** The steps of a party. */
  datatype Step =
    | AllocInput(n: nat) | AllocOutput(n: nat)
    | MarkPublic(r: Range) | MarkPrivate(r: Range) | MarkBlind(r: Range)
    | Assign(r: Range) | SetOutput(r: Range) | Commit(r: Range) | Decode(r: Range) | CompleteFlush

  function Initial(role: Role): State {
    State(role, 0, NewView(), {}, {}, {}, {}, {}, {}, {}, FlushView({}, {}))
  }

  function MarkError(s: State, r: Range): Option<ViewError> {
    if s.vis.IsSetAny(r) then Some(VisibilityAlreadySet)
    else if !(r.Cells() !! s.outputAll) then Some(VisibilityOutput)
    else None
  }

  function CommitError(s: State, r: Range): Option<ViewError> {
    if !s.vis.IsSet(r) then Some(VisibilityNotSet)
    else if !(r.Cells() !! s.outputAll) then Some(OutputCommit)
    else if !(r.Cells() !! s.inputComplete) then Some(AlreadyCommitted)
    else if !(r.Cells() * s.vis.public <= s.inputAssigned) || !(r.Cells() * s.vis.priv <= s.inputAssigned)
      then Some(NotAssigned)
    else None
  }

  function AssignError(s: State, r: Range): Option<ViewError> {
    if !s.vis.IsVisible(r) then Some(VisibilityAssign)
    else if !(r.Cells() !! s.outputAll) then Some(OutputAssign)
    else None
  }

  /** Why a step is refused, if it is. */
  function StepError(s: State, step: Step): Option<ViewError> {
    match step
    case MarkPublic(r) => MarkError(s, r)
    case MarkPrivate(r) => MarkError(s, r)
    case MarkBlind(r) => MarkError(s, r)
    case Assign(r) => AssignError(s, r)
    case SetOutput(r) => if r.Cells() <= s.outputAll then None else Some(NotOutput)
    case Commit(r) => CommitError(s, r)
    case _ => None
  }

  /** Visibility can only be set within allocated memory. */
  predicate Allocated(s: State, step: Step) {
    (step.MarkPublic? || step.MarkPrivate? || step.MarkBlind?) ==> step.r.end <= s.vis.len
  }

  predicate Accepts(s: State, step: Step) {
    StepError(s, step).None? && Allocated(s, step)
  }

  /** The inputs whose values only the prover knows. */
  function ProverInputs(s: State): set<nat> {
    if s.role.Prover? then s.vis.priv else s.vis.blind
  }

  function Decoded(s: State, r: Range): State {
    var undecoded := r.Cells() - s.decodeComplete;
    if undecoded == {} then s
    else
      var input, output := undecoded * s.inputAll, undecoded * s.outputAll;
      var provable := if s.role.Prover? then input * s.vis.priv else input - s.vis.visible;
      s.(decodeAll := s.decodeAll + undecoded,
         flush := s.flush.(prove := s.flush.prove + (provable * s.inputComplete + output * s.outputComplete)))
  }

  function Flushed(s: State, view: FlushView): State {
    s.(inputComplete := s.inputComplete + view.commit, decodeComplete := s.decodeComplete + view.prove,
       flush := FlushView({}, view.commit * s.decodeAll))
  }

  function OutputAfter(s: State, r: Range): State {
    s.(outputComplete := s.outputComplete + r.Cells(),
       flush := s.flush.(prove := s.flush.prove + r.Cells() * s.decodeAll))
  }

  /** The state after an accepted step; a flush completes the party's own flush view. */
  function After(s: State, step: Step): State
    requires Accepts(s, step)
  {
    match step
    case AllocInput(n) =>
      s.(len := s.len + n, vis := s.vis.Alloc(n), inputAll := s.inputAll + Range(s.len, s.len + n).Cells())
    case AllocOutput(n) =>
      s.(len := s.len + n, vis := s.vis.Alloc(n), outputAll := s.outputAll + Range(s.len, s.len + n).Cells())
    case MarkPublic(r) => s.(vis := s.vis.SetPublic(r))
    case MarkPrivate(r) => s.(vis := s.vis.SetPrivate(r))
    case MarkBlind(r) => s.(vis := s.vis.SetBlind(r))
    case Assign(r) => s.(inputAssigned := s.inputAssigned + r.Cells())
    case SetOutput(r) => OutputAfter(s, r)
    case Commit(r) =>
      s.(inputComplete := s.inputComplete + r.Cells() * s.vis.public,
         flush := s.flush.(commit := s.flush.commit + r.Cells() * ProverInputs(s)))
    case Decode(r) => Decoded(s, r)
    case CompleteFlush => Flushed(s, s.flush)
  }

  // Invariants of one party.

  /** What is committed or about to be has a visibility; what is to be decoded and ready is decoded or about to be. */
  ghost predicate Valid(s: State) {
    && s.vis.Valid() && s.len == s.vis.len
    && s.inputComplete !! s.vis.uninit && s.flush.commit <= ProverInputs(s) && s.flush.commit !! s.inputComplete
    && s.inputComplete <= s.inputAll && s.flush.commit <= s.inputAll && s.outputComplete <= s.outputAll
    && s.inputAll + s.outputAll == Range(0, s.len).Cells()
    && s.decodeAll * s.outputComplete <= s.decodeComplete + s.flush.prove
    && s.decodeAll * s.inputComplete * ProverInputs(s) <= s.decodeComplete + s.flush.prove
  }

  lemma InitialValid(role: Role)
    ensures Valid(Initial(role))
  {
  }

  lemma MarkValid(s: State, step: Step)
    requires Valid(s) && Accepts(s, step) && (step.MarkPublic? || step.MarkPrivate? || step.MarkBlind?)
    ensures Valid(After(s, step))
  {
    SetKeeps(s.vis, step.r);
    FreshRange(s.vis, step.r);
  }

  /** Committing a range of memory that is not output concerns inputs. */
  lemma CommitValid(s: State, r: Range)
    requires Valid(s) && Accepts(s, Commit(r))
    ensures Valid(After(s, Commit(r)))
  {
    forall i | i in r.Cells() ensures i in s.inputAll {
      assert i in Range(0, s.len).Cells();
    }
  }

  lemma AllocValid(s: State, step: Step)
    requires Valid(s) && Accepts(s, step) && (step.AllocInput? || step.AllocOutput?)
    ensures Valid(After(s, step))
  {
    AllocKeeps(s.vis, step.n);
    var added := Range(s.len, s.len + step.n).Cells();
    assert added !! Range(0, s.len).Cells();
    assert Range(0, s.len + step.n).Cells() == Range(0, s.len).Cells() + added;
  }

  lemma DecodeValid(s: State, r: Range)
    requires Valid(s)
    ensures Valid(Decoded(s, r))
  {
    var t := Decoded(s, r);
    forall i | i in t.decodeAll * t.inputComplete * ProverInputs(t) ensures i in t.decodeComplete + t.flush.prove {
      if i in s.decodeAll {
        assert i in s.decodeAll * s.inputComplete * ProverInputs(s);
      } else {
        assert i in r.Cells() - s.decodeComplete;
      }
    }
    forall i | i in t.decodeAll * t.outputComplete ensures i in t.decodeComplete + t.flush.prove {
      if i in s.decodeAll {
        assert i in s.decodeAll * s.outputComplete;
      } else {
        assert i in r.Cells() - s.decodeComplete;
      }
    }
  }

  lemma SetOutputValid(s: State, r: Range)
    requires Valid(s) && Accepts(s, SetOutput(r))
    ensures Valid(After(s, SetOutput(r)))
  {
    var t := After(s, SetOutput(r));
    forall i | i in t.decodeAll * t.outputComplete ensures i in t.decodeComplete + t.flush.prove {
      if i !in r.Cells() {
        assert i in s.decodeAll * s.outputComplete;
      }
    }
    forall i | i in t.decodeAll * t.inputComplete * ProverInputs(t) ensures i in t.decodeComplete + t.flush.prove {
      assert i in s.decodeAll * s.inputComplete * ProverInputs(s);
    }
  }

  lemma FlushValid(s: State)
    requires Valid(s)
    ensures Valid(Flushed(s, s.flush))
  {
    var t := Flushed(s, s.flush);
    forall i | i in t.decodeAll * t.inputComplete * ProverInputs(t) ensures i in t.decodeComplete + t.flush.prove {
      if i !in s.flush.commit {
        assert i in s.decodeAll * s.inputComplete * ProverInputs(s);
      }
    }
  }

  /** Every step keeps the invariant. */
  lemma StepValid(s: State, step: Step)
    requires Valid(s) && Accepts(s, step)
    ensures Valid(After(s, step))
  {
    match step
    case AllocInput(_) => AllocValid(s, step);
    case AllocOutput(_) => AllocValid(s, step);
    case MarkPublic(_) => MarkValid(s, step);
    case MarkPrivate(_) => MarkValid(s, step);
    case MarkBlind(_) => MarkValid(s, step);
    case Commit(r) => CommitValid(s, r);
    case Decode(r) => DecodeValid(s, r);
    case CompleteFlush => FlushValid(s);
    case SetOutput(r) => SetOutputValid(s, r);
    case Assign(_) =>
  }

  // Both parties.

  /** The step the other party takes at the same time: what one marks private the other marks blind. */
  function Mirror(step: Step): Step {
    match step
    case MarkPrivate(r) => MarkBlind(r)
    case MarkBlind(r) => MarkPrivate(r)
    case _ => step
  }

  /** The two parties agree on everything but who knows what and what each has assigned. */
  predicate InSync(p: State, v: State) {
    && p.role.Prover? && v.role.Verifier? && p.len == v.len && Mirrored(p.vis, v.vis)
    && p.inputComplete == v.inputComplete && p.inputAll == v.inputAll && p.outputComplete == v.outputComplete
      && p.outputAll == v.outputAll
    && p.decodeComplete == v.decodeComplete && p.decodeAll == v.decodeAll && p.flush == v.flush
  }

  /** A mirrored step keeps the parties in sync. */
  lemma MirroredStep(p: State, v: State, step: Step)
    requires Valid(p) && Valid(v) && InSync(p, v) && Accepts(p, step) && Accepts(v, Mirror(step))
    ensures InSync(After(p, step), After(v, Mirror(step)))
  {
    if step.Decode? {
      MirroredDecode(p, v, step.r);
    }
  }

  lemma MirroredDecode(p: State, v: State, r: Range)
    requires Valid(p) && Valid(v) && InSync(p, v)
    ensures InSync(Decoded(p, r), Decoded(v, r))
  {
    var input := (r.Cells() - p.decodeComplete) * p.inputAll;
    forall i ensures i in input * p.vis.priv * p.inputComplete <==> i in (input - v.vis.visible) * v.inputComplete {
      if i in (input - v.vis.visible) * v.inputComplete {
        assert i in Range(0, v.len).Cells();
      }
    }
    assert input * p.vis.priv * p.inputComplete == (input - v.vis.visible) * v.inputComplete;
  }

  /** The parties refuse the same steps for the same reasons, except that each checks its own assignments. */
  lemma MirroredErrors(p: State, v: State, step: Step)
    requires InSync(p, v) && !step.Assign?
    ensures StepError(p, step) == StepError(v, Mirror(step))
        || (step.Commit? && (StepError(p, step) == Some(NotAssigned) || StepError(v, step) == Some(NotAssigned)))
    ensures Allocated(p, step) == Allocated(v, Mirror(step))
  {
  }

  /** An assignment is local to the party that makes it. */
  datatype PairStep = Both(step: Step) | ProverAssigns(r: Range) | VerifierAssigns(r: Range)

  predicate PairAccepts(p: State, v: State, e: PairStep) {
    match e
    case Both(step) => !step.Assign? && Accepts(p, step) && Accepts(v, Mirror(step))
    case ProverAssigns(r) => Accepts(p, Assign(r))
    case VerifierAssigns(r) => Accepts(v, Assign(r))
  }

  function PairAfter(p: State, v: State, e: PairStep): (State, State)
    requires PairAccepts(p, v, e)
  {
    match e
    case Both(step) => (After(p, step), After(v, Mirror(step)))
    case ProverAssigns(r) => (After(p, Assign(r)), v)
    case VerifierAssigns(r) => (p, After(v, Assign(r)))
  }

  /** A run of mirrored steps and local assignments. */
  ghost predicate Reaches(p: State, v: State, run: seq<PairStep>, p': State, v': State)
    decreases |run|
  {
    if run == [] then p' == p && v' == v
    else PairAccepts(p, v, run[0]) && var (q, w) := PairAfter(p, v, run[0]); Reaches(q, w, run[1..], p', v')
  }

  lemma {:induction false} RunInSync(p: State, v: State, run: seq<PairStep>, p': State, v': State)
    requires Valid(p) && Valid(v) && InSync(p, v) && Reaches(p, v, run, p', v')
    ensures Valid(p') && Valid(v') && InSync(p', v')
    decreases |run|
  {
    if run != [] {
      var (q, w) := PairAfter(p, v, run[0]);
      PairStepKeeps(p, v, run[0]);
      RunInSync(q, w, run[1..], p', v');
    }
  }

  lemma PairStepKeeps(p: State, v: State, e: PairStep)
    requires Valid(p) && Valid(v) && InSync(p, v) && PairAccepts(p, v, e)
    ensures var (q, w) := PairAfter(p, v, e); Valid(q) && Valid(w) && InSync(q, w)
  {
    match e
    case Both(step) =>
      StepValid(p, step);
      StepValid(v, Mirror(step));
      MirroredStep(p, v, step);
    case ProverAssigns(r) => StepValid(p, Assign(r));
    case VerifierAssigns(r) => StepValid(v, Assign(r));
  }

  /** Over every run from new views, the two parties predict the same flush and agree on what is complete. */
  lemma FlushViewsAgree(run: seq<PairStep>, p: State, v: State)
    requires Reaches(Initial(Prover), Initial(Verifier), run, p, v)
    ensures p.flush == v.flush && p.inputComplete == v.inputComplete && p.outputComplete == v.outputComplete
        && p.decodeComplete == v.decodeComplete
    ensures Valid(p) && Valid(v) && Mirrored(p.vis, v.vis)
  {
    InitialValid(Prover);
    InitialValid(Verifier);
    RunInSync(Initial(Prover), Initial(Verifier), run, p, v);
  }

  /** With an empty flush view, everything marked for decoding that is ready has been decoded. */
  lemma EmptyFlushDecoded(s: State, i: nat)
    requires Valid(s) && s.flush.IsEmpty() && i in s.decodeAll
    requires i in s.outputComplete || (i in s.inputComplete && i in ProverInputs(s))
    ensures i in s.decodeComplete
  {
    assert i in s.decodeAll * s.outputComplete || i in s.decodeAll * s.inputComplete * ProverInputs(s);
  }

  /** Two flushes of its own flush view empty it in any state, and then everything ready to be decoded has been. */
  lemma TwoFlushes(s: State, t: State, u: State)
    requires Valid(s) && t == Flushed(s, s.flush) && u == Flushed(t, t.flush)
    ensures u.flush.IsEmpty() && Valid(u)
    ensures forall i | i in s.decodeAll
        && (i in s.outputComplete || (i in s.inputComplete + s.flush.commit && i in ProverInputs(s))) ::
      i in u.decodeComplete
  {
    FlushValid(s);
    FlushValid(t);
    forall i | i in s.decodeAll
        && (i in s.outputComplete || (i in s.inputComplete + s.flush.commit && i in ProverInputs(s)))
      ensures i in u.decodeComplete
    {
      EmptyFlushDecoded(u, i);
    }
  }

  /** A visibility, once set, never changes. */
  lemma VisibilityFixed(s: State, step: Step, i: nat)
    requires Valid(s) && Accepts(s, step)
    ensures i in s.vis.public ==> i in After(s, step).vis.public
    ensures i in s.vis.priv ==> i in After(s, step).vis.priv
    ensures i in s.vis.blind ==> i in After(s, step).vis.blind
  {
    if step.MarkPublic? || step.MarkPrivate? || step.MarkBlind? {
      FreshRange(s.vis, step.r);
    }
  }

  // The object.

  class View {
    const role: Role
    var len: nat
    var vis: VisibilityView
    var inputAssigned: set<nat>
    var inputComplete: set<nat>
    var inputAll: set<nat>
    var outputComplete: set<nat>
    var outputAll: set<nat>
    var decodeComplete: set<nat>
    var decodeAll: set<nat>
    var flush: FlushView

    function Value(): State
      reads this
    {
      State(role, len, vis, inputAssigned, inputComplete, inputAll, outputComplete, outputAll, decodeComplete,
            decodeAll, flush)
    }

    constructor (role: Role)
      ensures Value() == Initial(role)
    {
      this.role, len, vis := role, 0, NewView();
      inputAssigned, inputComplete, inputAll := {}, {}, {};
      outputComplete, outputAll, decodeComplete, decodeAll := {}, {}, {}, {};
      flush := FlushView({}, {});
    }

    method Alloc(size: nat) returns (range: Range)
      modifies this
      ensures range == Range(old(len), old(len) + size)
      ensures Value() == old(Value()).(len := old(len) + size, vis := old(vis).Alloc(size))
    {
      range := Range(len, len + size);
      len := len + size;
      vis := vis.Alloc(size);
    }

    method AllocInput(size: nat)
      modifies this
      ensures Value() == After(old(Value()), Step.AllocInput(size))
    {
      var range := Alloc(size);
      inputAll := inputAll + range.Cells();
    }

    method AllocOutput(size: nat)
      modifies this
      ensures Value() == After(old(Value()), Step.AllocOutput(size))
    {
      var range := Alloc(size);
      outputAll := outputAll + range.Cells();
    }

    method MarkPublic(range: Range) returns (r: Result<(), ViewError>)
      requires MarkError(Value(), range).None? ==> range.end <= vis.len
      modifies this
      ensures Outcome(old(Value()), Step.MarkPublic(range), r, Value())
    {
      if vis.IsSetAny(range) {
        return Err(VisibilityAlreadySet);
      } else if !(range.Cells() !! outputAll) {
        return Err(VisibilityOutput);
      }
      vis := vis.SetPublic(range);
      r := Ok(());
    }

    method MarkPrivate(range: Range) returns (r: Result<(), ViewError>)
      requires MarkError(Value(), range).None? ==> range.end <= vis.len
      modifies this
      ensures Outcome(old(Value()), Step.MarkPrivate(range), r, Value())
    {
      if vis.IsSetAny(range) {
        return Err(VisibilityAlreadySet);
      } else if !(range.Cells() !! outputAll) {
        return Err(VisibilityOutput);
      }
      vis := vis.SetPrivate(range);
      r := Ok(());
    }

    method MarkBlind(range: Range) returns (r: Result<(), ViewError>)
      requires MarkError(Value(), range).None? ==> range.end <= vis.len
      modifies this
      ensures Outcome(old(Value()), Step.MarkBlind(range), r, Value())
    {
      if vis.IsSetAny(range) {
        return Err(VisibilityAlreadySet);
      } else if !(range.Cells() !! outputAll) {
        return Err(VisibilityOutput);
      }
      vis := vis.SetBlind(range);
      r := Ok(());
    }

    method Assign(range: Range) returns (r: Result<(), ViewError>)
      modifies this
      ensures Outcome(old(Value()), Step.Assign(range), r, Value())
    {
      if !vis.IsVisible(range) {
        return Err(VisibilityAssign);
      } else if !(range.Cells() !! outputAll) {
        return Err(OutputAssign);
      }
      inputAssigned := inputAssigned + range.Cells();
      r := Ok(());
    }

    method SetOutput(range: Range) returns (r: Result<(), ViewError>)
      modifies this
      ensures Outcome(old(Value()), Step.SetOutput(range), r, Value())
    {
      if !(range.Cells() <= outputAll) {
        return Err(NotOutput);
      }
      outputComplete := outputComplete + range.Cells();
      flush := flush.(prove := flush.prove + range.Cells() * decodeAll);
      r := Ok(());
    }

    method Commit(range: Range) returns (r: Result<(), ViewError>)
      modifies this
      ensures Outcome(old(Value()), Step.Commit(range), r, Value())
    {
      if !vis.IsSet(range) {
        return Err(VisibilityNotSet);
      }
      if !(range.Cells() !! outputAll) {
        return Err(OutputCommit);
      }
      if !(range.Cells() !! inputComplete) {
        return Err(AlreadyCommitted);
      }
      var blind, priv, public := range.Cells() * vis.blind, range.Cells() * vis.priv, range.Cells() * vis.public;
      if !(public <= inputAssigned) || !(priv <= inputAssigned) {
        return Err(NotAssigned);
      }
      inputComplete := inputComplete + public;
      match role {
        case Prover => flush := flush.(commit := flush.commit + priv);
        case Verifier => flush := flush.(commit := flush.commit + blind);
      }
      r := Ok(());
    }

    method Decode(range: Range)
      modifies this
      ensures Value() == Decoded(old(Value()), range)
    {
      var undecoded := range.Cells() - decodeComplete;
      if undecoded == {} {
        return;
      }
      decodeAll := decodeAll + undecoded;
      var input, output := undecoded * inputAll, undecoded * outputAll;
      match role {
        case Prover => flush := flush.(prove := flush.prove
          + (input * vis.priv * inputComplete + output * outputComplete));
        case Verifier => flush := flush.(prove := flush.prove
          + ((input - vis.visible) * inputComplete + output * outputComplete));
      }
    }

    method CompleteFlush(view: FlushView)
      modifies this
      ensures Value() == Flushed(old(Value()), view)
    {
      inputComplete := inputComplete + view.commit;
      decodeComplete := decodeComplete + view.prove;
      flush := FlushView({}, {});
      flush := flush.(prove := flush.prove + view.commit * decodeAll);
    }
  }

  /** An accepted step leads to the next state; a refused one reports why and changes nothing. */
  predicate Outcome(s: State, step: Step, r: Result<(), ViewError>, s': State) {
    match StepError(s, step)
    case Some(e) => r == Err(e) && s' == s
    case None => r == Ok(()) && Allocated(s, step) && s' == After(s, step)
  }
}
