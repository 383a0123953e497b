/** The garbled-circuit memory view: what each party expects the next flush to hold. */
module GarbleView {
  import opened Results
  import opened Visibility

  datatype Role = Garbler | Evaluator

  /** Ranges for which MACs are sent directly or by oblivious transfer, key bits are sent, and MACs are proved. */
  datatype FlushView = FlushView(macs: set<nat>, ot: set<nat>, decodeInfo: set<nat>, decode: set<nat>)
  {
    predicate IsEmpty() {
      macs == {} && ot == {} && decodeInfo == {} && decode == {}
    }
  }

  datatype ViewError =
    | VisibilityAlreadySet | VisibilityOutput | VisibilityAssign | OutputAssign | NotOutput
    | VisibilityNotSet | OutputCommit | AlreadyCommitted | NotAssigned

  datatype State = State(role: Role, len: nat, vis: VisibilityView,
                         inputAssigned: set<nat>, inputComplete: set<nat>, inputAll: set<nat>,
                         preprocessed: set<nat>, outputComplete: set<nat>, outputAll: set<nat>,
                         decodeInfo: set<nat>, decodeComplete: set<nat>, decodeAll: set<nat>, flush: FlushView)

  /** The steps of a party. */
  datatype Step =
    | AllocInput(n: nat) | AllocOutput(n: nat)
    | MarkPublic(r: Range) | MarkPrivate(r: Range) | MarkBlind(r: Range)
    | Assign(r: Range) | SetPreprocessed(r: Range) | SetOutput(r: Range) | Commit(r: Range) | Decode(r: Range)
    | CompleteFlush

  function Initial(role: Role): State {
    State(role, 0, NewView(), {}, {}, {}, {}, {}, {}, {}, {}, {}, FlushView({}, {}, {}, {}))
  }

  function MarkError(s: State, r: Range): Option<ViewError> {
    if s.vis.IsSetAny(r) then Some(VisibilityAlreadySet)
    else if !(r.Cells() !! s.outputAll) then Some(VisibilityOutput)
    else None
  }

  function CommitError(s: State, r: Range): Option<ViewError> {
    if !s.vis.IsSet(r) then Some(VisibilityNotSet)
    else if !(r.Cells() !! s.outputAll) then Some(OutputCommit)
    else if !(r.Cells() !! s.inputComplete) then Some(AlreadyCommitted)
    else if !(r.Cells() * s.vis.public <= s.inputAssigned) || !(r.Cells() * s.vis.priv <= s.inputAssigned)
      then Some(NotAssigned)
    else None
  }

  function AssignError(s: State, r: Range): Option<ViewError> {
    if !s.vis.IsVisible(r) then Some(VisibilityAssign)
    else if !(r.Cells() !! s.outputAll) then Some(OutputAssign)
    else None
  }

  function OutputError(s: State, r: Range): Option<ViewError> {
    if r.Cells() <= s.outputAll then None else Some(NotOutput)
  }

  /** Why a step is refused, if it is. */
  function StepError(s: State, step: Step): Option<ViewError> {
    match step
    case MarkPublic(r) => MarkError(s, r)
    case MarkPrivate(r) => MarkError(s, r)
    case MarkBlind(r) => MarkError(s, r)
    case Assign(r) => AssignError(s, r)
    case SetPreprocessed(r) => OutputError(s, r)
    case SetOutput(r) => OutputError(s, r)
    case Commit(r) => CommitError(s, r)
    case _ => None
  }

  /** Visibility can only be set within allocated memory. */
  predicate Allocated(s: State, step: Step) {
    (step.MarkPublic? || step.MarkPrivate? || step.MarkBlind?) ==> step.r.end <= s.vis.len
  }

  predicate Accepts(s: State, step: Step) {
    StepError(s, step).None? && Allocated(s, step)
  }

  /** The inputs whose values only the evaluator knows. */
  function EvaluatorInputs(s: State): set<nat> {
    if s.role.Garbler? then s.vis.blind else s.vis.priv
  }

  /** The inputs whose values only the garbler knows. */
  function GarblerInputs(s: State): set<nat> {
    if s.role.Garbler? then s.vis.priv else s.vis.blind
  }

  function PreprocessedAfter(s: State, r: Range): State {
    s.(preprocessed := s.preprocessed + r.Cells(),
       flush := s.flush.(decodeInfo := s.flush.decodeInfo + (r.Cells() * s.decodeAll - s.decodeComplete)))
  }

  function OutputAfter(s: State, r: Range): State {
    s.(preprocessed := s.preprocessed + r.Cells(), outputComplete := s.outputComplete + r.Cells(),
       flush := s.flush.(decodeInfo := s.flush.decodeInfo + (r.Cells() * s.decodeAll - s.decodeInfo),
                         decode := s.flush.decode + (r.Cells() * s.decodeInfo - s.decodeComplete)))
  }

  function CommitAfter(s: State, r: Range): State {
    var c := r.Cells();
    s.(flush := s.flush.(macs := s.flush.macs + (c * s.vis.public + c * GarblerInputs(s)),
                         ot := s.flush.ot + c * EvaluatorInputs(s)))
  }

  function DecodeAfter(s: State, r: Range): State {
    var undecoded := r.Cells() - s.decodeComplete;
    if undecoded == {} then s
    else
      var input, output := r.Cells() * s.inputAll, r.Cells() * s.outputAll;
      var decodable := input * GarblerInputs(s) + output * s.preprocessed;
      var provable := if s.role.Garbler? then input - s.vis.visible else input * s.vis.priv;
      s.(decodeAll := s.decodeAll + undecoded,
         flush := s.flush.(decodeInfo := s.flush.decodeInfo + (decodable - s.decodeInfo),
                           decode := s.flush.decode + (provable * s.inputComplete + output * s.outputComplete)))
  }

  function Flushed(s: State): State {
    var complete := s.decodeComplete + s.flush.decode;
    var readyInputs, readyOutputs := s.flush.ot * s.decodeAll, s.flush.decodeInfo * s.outputComplete - complete;
    s.(inputComplete := s.inputComplete + s.flush.macs + s.flush.ot, decodeInfo := s.decodeInfo + s.flush.decodeInfo,
       decodeComplete := complete, flush := FlushView({}, {}, {}, readyInputs + readyOutputs))
  }

  /** The state after an accepted step. */
  function After(s: State, step: Step): State
    requires Accepts(s, step)
  {
    match step
    case AllocInput(n) =>
      s.(len := s.len + n, vis := s.vis.Alloc(n), inputAll := s.inputAll + Range(s.len, s.len + n).Cells())
    case AllocOutput(n) =>
      s.(len := s.len + n, vis := s.vis.Alloc(n), outputAll := s.outputAll + Range(s.len, s.len + n).Cells())
    case MarkPublic(r) => s.(vis := s.vis.SetPublic(r))
    case MarkPrivate(r) => s.(vis := s.vis.SetPrivate(r))
    case MarkBlind(r) => s.(vis := s.vis.SetBlind(r))
    case Assign(r) => s.(inputAssigned := s.inputAssigned + r.Cells())
    case SetPreprocessed(r) => PreprocessedAfter(s, r)
    case SetOutput(r) => OutputAfter(s, r)
    case Commit(r) => CommitAfter(s, r)
    case Decode(r) => DecodeAfter(s, r)
    case CompleteFlush => Flushed(s)
  }

  // Invariants of one party.

  /** What is marked for decoding and ready is decoded, about to be, or about to get its decoding information. */
  ghost predicate DecodesKept(s: State) {
    && s.decodeAll * s.outputComplete <= s.decodeComplete + s.flush.decode + s.flush.decodeInfo
    && s.decodeAll * s.inputComplete * EvaluatorInputs(s) <= s.decodeComplete + s.flush.decode
  }

  /** What is committed or about to be has a visibility, and the evaluator's inputs only go by oblivious transfer. */
  ghost predicate InputsKept(s: State) {
    && s.inputComplete + s.flush.macs + s.flush.ot !! s.vis.uninit
    && s.inputComplete + s.flush.macs + s.flush.ot <= s.inputAll && s.outputComplete <= s.outputAll
    && s.inputAll + s.outputAll == Range(0, s.len).Cells()
    && s.flush.macs !! EvaluatorInputs(s)
  }

  ghost predicate Valid(s: State) {
    s.vis.Valid() && s.len == s.vis.len && InputsKept(s) && DecodesKept(s)
  }

  lemma InitialValid(role: Role)
    ensures Valid(Initial(role))
  {
  }

  lemma MarkValid(s: State, step: Step)
    requires Valid(s) && Accepts(s, step) && (step.MarkPublic? || step.MarkPrivate? || step.MarkBlind?)
    ensures Valid(After(s, step))
  {
    SetKeeps(s.vis, step.r);
    FreshRange(s.vis, step.r);
  }

  lemma CommitValid(s: State, r: Range)
    requires Valid(s) && Accepts(s, Commit(r))
    ensures Valid(After(s, Commit(r)))
  {
    forall i | i in r.Cells() ensures i in s.inputAll {
      assert i in Range(0, s.len).Cells();
    }
  }

  lemma AllocValid(s: State, step: Step)
    requires Valid(s) && Accepts(s, step) && (step.AllocInput? || step.AllocOutput?)
    ensures Valid(After(s, step))
  {
    AllocKeeps(s.vis, step.n);
    var added := Range(s.len, s.len + step.n).Cells();
    assert added !! Range(0, s.len).Cells();
    assert Range(0, s.len + step.n).Cells() == Range(0, s.len).Cells() + added;
  }

  lemma OutputValid(s: State, r: Range)
    requires Valid(s) && Accepts(s, SetOutput(r))
    ensures Valid(OutputAfter(s, r))
  {
    var t := OutputAfter(s, r);
    forall i | i in t.decodeAll * t.outputComplete ensures i in t.decodeComplete + t.flush.decode + t.flush.decodeInfo {
      if i !in r.Cells() {
        assert i in s.decodeAll * s.outputComplete;
      }
    }
  }

  lemma DecodeValid(s: State, r: Range)
    requires Valid(s)
    ensures Valid(DecodeAfter(s, r))
  {
    var t := DecodeAfter(s, r);
    forall i | i in t.decodeAll * t.inputComplete * EvaluatorInputs(t) ensures i in t.decodeComplete + t.flush.decode {
      if i in s.decodeAll {
        assert i in s.decodeAll * s.inputComplete * EvaluatorInputs(s);
      } else {
        assert i in r.Cells() - s.decodeComplete;
      }
    }
    forall i | i in t.decodeAll * t.outputComplete ensures i in t.decodeComplete + t.flush.decode + t.flush.decodeInfo {
      if i in s.decodeAll {
        assert i in s.decodeAll * s.outputComplete;
      } else {
        assert i in r.Cells() - s.decodeComplete;
      }
    }
  }

  lemma FlushValid(s: State)
    requires Valid(s)
    ensures Valid(Flushed(s))
  {
    var t := Flushed(s);
    forall i | i in t.decodeAll * t.inputComplete * EvaluatorInputs(t) ensures i in t.decodeComplete + t.flush.decode {
      if i in s.inputComplete {
        assert i in s.decodeAll * s.inputComplete * EvaluatorInputs(s);
      }
    }
    forall i | i in t.decodeAll * t.outputComplete ensures i in t.decodeComplete + t.flush.decode + t.flush.decodeInfo {
      assert i in s.decodeAll * s.outputComplete;
    }
  }

  /** Every step keeps the invariant. */
  lemma StepValid(s: State, step: Step)
    requires Valid(s) && Accepts(s, step)
    ensures Valid(After(s, step))
  {
    match step
    case AllocInput(_) => AllocValid(s, step);
    case AllocOutput(_) => AllocValid(s, step);
    case MarkPublic(_) => MarkValid(s, step);
    case MarkPrivate(_) => MarkValid(s, step);
    case MarkBlind(_) => MarkValid(s, step);
    case Assign(_) =>
    case SetPreprocessed(_) =>
    case SetOutput(r) => OutputValid(s, r);
    case Commit(r) => CommitValid(s, r);
    case Decode(r) => DecodeValid(s, r);
    case CompleteFlush => FlushValid(s);
  }

  // Both parties.

  /** The step the other party takes at the same time: what one marks private the other marks blind. */
  function Mirror(step: Step): Step {
    match step
    case MarkPrivate(r) => MarkBlind(r)
    case MarkBlind(r) => MarkPrivate(r)
    case _ => step
  }

  /** The two parties agree on everything but who knows what and what each has assigned. */
  predicate InSync(g: State, e: State) {
    && g.role.Garbler? && e.role.Evaluator? && g.len == e.len && Mirrored(g.vis, e.vis)
    && g.inputComplete == e.inputComplete && g.inputAll == e.inputAll
    && g.preprocessed == e.preprocessed && g.outputComplete == e.outputComplete && g.outputAll == e.outputAll
    && g.decodeInfo == e.decodeInfo && g.decodeComplete == e.decodeComplete && g.decodeAll == e.decodeAll
      && g.flush == e.flush
  }

  lemma MirroredDecode(g: State, e: State, r: Range)
    requires Valid(g) && Valid(e) && InSync(g, e)
    ensures InSync(DecodeAfter(g, r), DecodeAfter(e, r))
  {
    var input := r.Cells() * g.inputAll;
    forall i ensures i in input * e.vis.priv * e.inputComplete <==> i in (input - g.vis.visible) * g.inputComplete {
      if i in (input - g.vis.visible) * g.inputComplete {
        assert i in Range(0, g.len).Cells();
      }
    }
    assert input * e.vis.priv * e.inputComplete == (input - g.vis.visible) * g.inputComplete;
  }

  /** A mirrored step keeps the parties in sync. */
  lemma MirroredStep(g: State, e: State, step: Step)
    requires Valid(g) && Valid(e) && InSync(g, e) && Accepts(g, step) && Accepts(e, Mirror(step))
    ensures InSync(After(g, step), After(e, Mirror(step)))
  {
    if step.Decode? {
      MirroredDecode(g, e, step.r);
    }
  }

  /** The parties refuse the same steps for the same reasons, except that each checks its own assignments. */
  lemma MirroredErrors(g: State, e: State, step: Step)
    requires InSync(g, e) && !step.Assign?
    ensures StepError(g, step) == StepError(e, Mirror(step))
        || (step.Commit? && (StepError(g, step) == Some(NotAssigned) || StepError(e, step) == Some(NotAssigned)))
    ensures Allocated(g, step) == Allocated(e, Mirror(step))
  {
  }

  /** An assignment is local to the party that makes it. */
  datatype PairStep = Both(step: Step) | GarblerAssigns(r: Range) | EvaluatorAssigns(r: Range)

  predicate PairAccepts(g: State, e: State, p: PairStep) {
    match p
    case Both(step) => !step.Assign? && Accepts(g, step) && Accepts(e, Mirror(step))
    case GarblerAssigns(r) => Accepts(g, Assign(r))
    case EvaluatorAssigns(r) => Accepts(e, Assign(r))
  }

  function PairAfter(g: State, e: State, p: PairStep): (State, State)
    requires PairAccepts(g, e, p)
  {
    match p
    case Both(step) => (After(g, step), After(e, Mirror(step)))
    case GarblerAssigns(r) => (After(g, Assign(r)), e)
    case EvaluatorAssigns(r) => (g, After(e, Assign(r)))
  }

  /** A run of mirrored steps and local assignments. */
  ghost predicate Reaches(g: State, e: State, run: seq<PairStep>, g': State, e': State)
    decreases |run|
  {
    if run == [] then g' == g && e' == e
    else PairAccepts(g, e, run[0]) && var (q, w) := PairAfter(g, e, run[0]); Reaches(q, w, run[1..], g', e')
  }

  lemma PairStepKeeps(g: State, e: State, p: PairStep)
    requires Valid(g) && Valid(e) && InSync(g, e) && PairAccepts(g, e, p)
    ensures var (q, w) := PairAfter(g, e, p); Valid(q) && Valid(w) && InSync(q, w)
  {
    match p
    case Both(step) =>
      StepValid(g, step);
      StepValid(e, Mirror(step));
      MirroredStep(g, e, step);
    case GarblerAssigns(r) => StepValid(g, Assign(r));
    case EvaluatorAssigns(r) => StepValid(e, Assign(r));
  }

  lemma {:induction false} RunInSync(g: State, e: State, run: seq<PairStep>, g': State, e': State)
    requires Valid(g) && Valid(e) && InSync(g, e) && Reaches(g, e, run, g', e')
    ensures Valid(g') && Valid(e') && InSync(g', e')
    decreases |run|
  {
    if run != [] {
      var (q, w) := PairAfter(g, e, run[0]);
      PairStepKeeps(g, e, run[0]);
      RunInSync(q, w, run[1..], g', e');
    }
  }

  /** Over every run from new views, the two parties predict the same flush and agree on what is complete. */
  lemma FlushViewsAgree(run: seq<PairStep>, g: State, e: State)
    requires Reaches(Initial(Garbler), Initial(Evaluator), run, g, e)
    ensures g.flush == e.flush && g.inputComplete == e.inputComplete && g.outputComplete == e.outputComplete
    ensures g.decodeInfo == e.decodeInfo && g.decodeComplete == e.decodeComplete
    ensures Valid(g) && Valid(e) && Mirrored(g.vis, e.vis)
  {
    InitialValid(Garbler);
    InitialValid(Evaluator);
    RunInSync(Initial(Garbler), Initial(Evaluator), run, g, e);
  }

  /** With an empty flush view, everything marked for decoding that is ready has been decoded. */
  lemma EmptyFlushDecoded(s: State, i: nat)
    requires Valid(s) && s.flush.IsEmpty() && i in s.decodeAll
    requires i in s.outputComplete || (i in s.inputComplete && i in EvaluatorInputs(s))
    ensures i in s.decodeComplete
  {
    assert i in s.decodeAll * s.outputComplete || i in s.decodeAll * s.inputComplete * EvaluatorInputs(s);
  }

  /** Two flushes empty the flush view of any state, and then everything ready to be decoded has been. */
  lemma TwoFlushes(s: State)
    requires Valid(s)
    ensures Flushed(Flushed(s)).flush.IsEmpty() && Valid(Flushed(Flushed(s)))
    ensures forall i | i in s.decodeAll
        && (i in s.outputComplete || (i in s.inputComplete + s.flush.macs + s.flush.ot && i in EvaluatorInputs(s))) ::
      i in Flushed(Flushed(s)).decodeComplete
  {
    FlushValid(s);
    FlushValid(Flushed(s));
    var t := Flushed(Flushed(s));
    forall i | i in s.decodeAll
        && (i in s.outputComplete || (i in s.inputComplete + s.flush.macs + s.flush.ot && i in EvaluatorInputs(s)))
      ensures i in t.decodeComplete
    {
      EmptyFlushDecoded(t, i);
    }
  }

  /** A visibility, once set, never changes. */
  lemma VisibilityFixed(s: State, step: Step, i: nat)
    requires Valid(s) && Accepts(s, step)
    ensures i in s.vis.public ==> i in After(s, step).vis.public
    ensures i in s.vis.priv ==> i in After(s, step).vis.priv
    ensures i in s.vis.blind ==> i in After(s, step).vis.blind
  {
    if step.MarkPublic? || step.MarkPrivate? || step.MarkBlind? {
      FreshRange(s.vis, step.r);
    }
  }

  // The object.

  class View {
    const role: Role
    var len: nat
    var vis: VisibilityView
    var inputAssigned: set<nat>
    var inputComplete: set<nat>
    var inputAll: set<nat>
    var preprocessed: set<nat>
    var outputComplete: set<nat>
    var outputAll: set<nat>
    var decodeInfo: set<nat>
    var decodeComplete: set<nat>
    var decodeAll: set<nat>
    var flush: FlushView

    function Value(): State
      reads this
    {
      State(role, len, vis, inputAssigned, inputComplete, inputAll, preprocessed, outputComplete, outputAll,
            decodeInfo, decodeComplete, decodeAll, flush)
    }

    constructor (role: Role)
      ensures Value() == Initial(role)
    {
      this.role, len, vis := role, 0, NewView();
      inputAssigned, inputComplete, inputAll := {}, {}, {};
      preprocessed, outputComplete, outputAll := {}, {}, {};
      decodeInfo, decodeComplete, decodeAll := {}, {}, {};
      flush := FlushView({}, {}, {}, {});
    }

    method Alloc(size: nat) returns (range: Range)
      modifies this
      ensures range == Range(old(len), old(len) + size)
      ensures Value() == old(Value()).(len := old(len) + size, vis := old(vis).Alloc(size))
    {
      range := Range(len, len + size);
      len := len + size;
      vis := vis.Alloc(size);
    }

    method AllocInput(size: nat)
      modifies this
      ensures Value() == After(old(Value()), Step.AllocInput(size))
    {
      var range := Alloc(size);
      inputAll := inputAll + range.Cells();
    }

    method AllocOutput(size: nat)
      modifies this
      ensures Value() == After(old(Value()), Step.AllocOutput(size))
    {
      var range := Alloc(size);
      outputAll := outputAll + range.Cells();
    }

    method MarkPublic(range: Range) returns (r: Result<(), ViewError>)
      requires MarkError(Value(), range).None? ==> range.end <= vis.len
      modifies this
      ensures Outcome(old(Value()), Step.MarkPublic(range), r, Value())
    {
      if vis.IsSetAny(range) {
        return Err(VisibilityAlreadySet);
      } else if !(range.Cells() !! outputAll) {
        return Err(VisibilityOutput);
      }
      vis := vis.SetPublic(range);
      r := Ok(());
    }

    method MarkPrivate(range: Range) returns (r: Result<(), ViewError>)
      requires MarkError(Value(), range).None? ==> range.end <= vis.len
      modifies this
      ensures Outcome(old(Value()), Step.MarkPrivate(range), r, Value())
    {
      if vis.IsSetAny(range) {
        return Err(VisibilityAlreadySet);
      } else if !(range.Cells() !! outputAll) {
        return Err(VisibilityOutput);
      }
      vis := vis.SetPrivate(range);
      r := Ok(());
    }

    method MarkBlind(range: Range) returns (r: Result<(), ViewError>)
      requires MarkError(Value(), range).None? ==> range.end <= vis.len
      modifies this
      ensures Outcome(old(Value()), Step.MarkBlind(range), r, Value())
    {
      if vis.IsSetAny(range) {
        return Err(VisibilityAlreadySet);
      } else if !(range.Cells() !! outputAll) {
        return Err(VisibilityOutput);
      }
      vis := vis.SetBlind(range);
      r := Ok(());
    }

    method Assign(range: Range) returns (r: Result<(), ViewError>)
      modifies this
      ensures Outcome(old(Value()), Step.Assign(range), r, Value())
    {
      if !vis.IsVisible(range) {
        return Err(VisibilityAssign);
      } else if !(range.Cells() !! outputAll) {
        return Err(OutputAssign);
      }
      inputAssigned := inputAssigned + range.Cells();
      r := Ok(());
    }

    method SetPreprocessed(range: Range) returns (r: Result<(), ViewError>)
      modifies this
      ensures Outcome(old(Value()), Step.SetPreprocessed(range), r, Value())
    {
      if !(range.Cells() <= outputAll) {
        return Err(NotOutput);
      }
      preprocessed := preprocessed + range.Cells();
      flush := flush.(decodeInfo := flush.decodeInfo + (range.Cells() * decodeAll - decodeComplete));
      r := Ok(());
    }

    method SetOutput(range: Range) returns (r: Result<(), ViewError>)
      modifies this
      ensures Outcome(old(Value()), Step.SetOutput(range), r, Value())
    {
      if !(range.Cells() <= outputAll) {
        return Err(NotOutput);
      }
      preprocessed := preprocessed + range.Cells();
      outputComplete := outputComplete + range.Cells();
      flush := flush.(decodeInfo := flush.decodeInfo + (range.Cells() * decodeAll - decodeInfo));
      flush := flush.(decode := flush.decode + (range.Cells() * decodeInfo - decodeComplete));
      r := Ok(());
    }

    method Commit(range: Range) returns (r: Result<(), ViewError>)
      modifies this
      ensures Outcome(old(Value()), Step.Commit(range), r, Value())
    {
      if !vis.IsSet(range) {
        return Err(VisibilityNotSet);
      }
      if !(range.Cells() !! outputAll) {
        return Err(OutputCommit);
      }
      if !(range.Cells() !! inputComplete) {
        return Err(AlreadyCommitted);
      }
      var blind, priv, public := range.Cells() * vis.blind, range.Cells() * vis.priv, range.Cells() * vis.public;
      if !(public <= inputAssigned) || !(priv <= inputAssigned) {
        return Err(NotAssigned);
      }
      match role {
        case Garbler => flush := flush.(macs := flush.macs + (public + priv), ot := flush.ot + blind);
        case Evaluator => flush := flush.(macs := flush.macs + (public + blind), ot := flush.ot + priv);
      }
      r := Ok(());
    }

    method Decode(range: Range)
      modifies this
      ensures Value() == DecodeAfter(old(Value()), range)
    {
      var undecoded := range.Cells() - decodeComplete;
      if undecoded == {} {
        return;
      }
      decodeAll := decodeAll + undecoded;
      var input, output := range.Cells() * inputAll, range.Cells() * outputAll;
      var decodable := (match role case Garbler => input * vis.priv case Evaluator => input * vis.blind)
          + output * preprocessed;
      flush := flush.(decodeInfo := flush.decodeInfo + (decodable - decodeInfo));
      match role {
        case Garbler => flush := flush.(decode := flush.decode
          + ((input - vis.visible) * inputComplete + output * outputComplete));
        case Evaluator => flush := flush.(decode := flush.decode
          + (input * vis.priv * inputComplete + output * outputComplete));
      }
    }

    method CompleteFlush()
      modifies this
      ensures Value() == Flushed(old(Value()))
    {
      inputComplete := inputComplete + flush.macs;
      inputComplete := inputComplete + flush.ot;
      decodeInfo := decodeInfo + flush.decodeInfo;
      decodeComplete := decodeComplete + flush.decode;
      var readyInputs := flush.ot * decodeAll;
      var readyOutputs := flush.decodeInfo * outputComplete - decodeComplete;
      flush := FlushView({}, {}, {}, {});
      flush := flush.(decode := flush.decode + readyInputs);
      flush := flush.(decode := flush.decode + readyOutputs);
    }
  }

  /** An accepted step leads to the next state; a refused one reports why and changes nothing. */
  predicate Outcome(s: State, step: Step, r: Result<(), ViewError>, s': State) {
    match StepError(s, step)
    case Some(e) => r == Err(e) && s' == s
    case None => r == Ok(()) && Allocated(s, step) && s' == After(s, step)
  }
}
