/** What the garbled-circuit memory view holds, as a function of the steps that were taken. */
module GarbleHistory {
  import opened Histories
  import opened Results
  import opened Visibility
  import opened GarbleView

  // What the steps say.

  function MadePublic(step: Step): set<nat> {
    if step.MarkPublic? then step.r.Cells() else {}
  }

  function MadePrivate(step: Step): set<nat> {
    if step.MarkPrivate? then step.r.Cells() else {}
  }

  function MadeBlind(step: Step): set<nat> {
    if step.MarkBlind? then step.r.Cells() else {}
  }

  function Assigned(step: Step): set<nat> {
    if step.Assign? then step.r.Cells() else {}
  }

  function Preprocessed(step: Step): set<nat> {
    if step.SetPreprocessed? || step.SetOutput? then step.r.Cells() else {}
  }

  function Computed(step: Step): set<nat> {
    if step.SetOutput? then step.r.Cells() else {}
  }

  function Committed(step: Step): set<nat> {
    if step.Commit? then step.r.Cells() else {}
  }

  function ToDecode(step: Step): set<nat> {
    if step.Decode? then step.r.Cells() else {}
  }

  /** How many cells the steps allocated. */
  function Length(steps: seq<Step>): nat {
    if steps == [] then 0
    else
      var last := steps[|steps| - 1];
      Length(steps[..|steps| - 1]) + if last.AllocInput? || last.AllocOutput? then last.n else 0
  }

  /** The cells allocated as inputs, or as outputs. */
  function AllocatedAs(steps: seq<Step>, output: bool): set<nat> {
    if steps == [] then {}
    else
      var before, last := steps[..|steps| - 1], steps[|steps| - 1];
      var start := Length(before);
      AllocatedAs(before, output) +
      if (output && last.AllocOutput?) || (!output && last.AllocInput?) then Range(start, start + last.n).Cells()
      else {}
  }

  function Marked(steps: seq<Step>): set<nat> {
    Touched(steps, MadePublic) + Touched(steps, MadePrivate) + Touched(steps, MadeBlind)
  }

  /** The inputs known to the party itself, or to the other party. */
  function Known(steps: seq<Step>, own: bool): set<nat> {
    if own then Touched(steps, MadePrivate) else Touched(steps, MadeBlind)
  }

  /** The inputs known to the garbler alone. */
  function OfGarbler(role: Role, steps: seq<Step>): set<nat> {
    Known(steps, role.Garbler?)
  }

  /** The inputs known to the evaluator alone. */
  function OfEvaluator(role: Role, steps: seq<Step>): set<nat> {
    Known(steps, role.Evaluator?)
  }

  /** The garbler's inputs that were marked for decoding when they were already the garbler's. */
  function DecodedKnown(role: Role, steps: seq<Step>): set<nat> {
    if steps == [] then {}
    else
      var before, last := steps[..|steps| - 1], steps[|steps| - 1];
      DecodedKnown(role, before) + ToDecode(last) * OfGarbler(role, before)
  }

  // The state after them.

  /** The state of a new view after the steps, if all of them are accepted. */
  function StateAfter(role: Role, steps: seq<Step>): Option<State> {
    if steps == [] then Some(GarbleView.Initial(role))
    else
      match StateAfter(role, steps[..|steps| - 1])
      case None => None
      case Some(s) => if Accepts(s, steps[|steps| - 1]) then Some(After(s, steps[|steps| - 1])) else None
  }

  ghost predicate VisibilityOf(steps: seq<Step>, vis: VisibilityView) {
    && vis.public == Touched(steps, MadePublic) && vis.priv == Touched(steps, MadePrivate)
    && vis.blind == Touched(steps, MadeBlind)
  }

  ghost predicate AllocationOf(steps: seq<Step>, s: State) {
    s.len == Length(steps) && s.inputAll == AllocatedAs(steps, false) && s.outputAll == AllocatedAs(steps, true)
  }

  ghost predicate ProgressOf(steps: seq<Step>, s: State) {
    && s.inputAssigned == Touched(steps, Assigned) && s.preprocessed == Touched(steps, Preprocessed)
    && s.outputComplete == Touched(steps, Computed) && s.decodeAll == Touched(steps, ToDecode)
  }

  ghost predicate Determined(role: Role, steps: seq<Step>, s: State) {
    s.role == role && VisibilityOf(steps, s.vis) && AllocationOf(steps, s) && ProgressOf(steps, s)
  }

  /** What was committed is complete, or about to be by the way that fits its visibility. */
  ghost predicate CommitsKept(role: Role, steps: seq<Step>, s: State) {
    var committed := Touched(steps, Committed);
    && committed <= Marked(steps) <= s.inputAll && Marked(steps) !! s.vis.uninit && s.inputComplete <= committed
    && s.flush.macs == committed * (Touched(steps, MadePublic) + OfGarbler(role, steps)) - s.inputComplete
    && s.flush.ot == committed * OfEvaluator(role, steps) - s.inputComplete
  }

  /** What is decoded or about to be is marked for decoding and ready. */
  ghost predicate DecodesOnlyReady(s: State) {
    && s.decodeComplete + s.flush.decode <= s.decodeAll * (s.outputComplete + s.inputComplete * EvaluatorInputs(s))
    && s.outputComplete <= s.preprocessed <= s.outputAll && s.inputAll !! s.outputAll
  }

  /** Decoding information was sent, or is about to be, for exactly what was preprocessed and is marked for decoding,
      and for the garbler's inputs that were the garbler's when they were marked for decoding. */
  ghost predicate InfoExact(role: Role, steps: seq<Step>, s: State) {
    && s.decodeInfo + s.flush.decodeInfo == s.decodeAll * s.preprocessed + DecodedKnown(role, steps)
    && (s.decodeComplete + s.flush.decode) * s.outputAll <= s.decodeInfo + s.flush.decodeInfo
  }

  lemma AllocatedNext(steps: seq<Step>, step: Step)
    ensures Length(steps + [step])
         == Length(steps) + if step.AllocInput? || step.AllocOutput? then step.n else 0
    ensures AllocatedAs(steps + [step], true)
         == AllocatedAs(steps, true)
            + if step.AllocOutput? then Range(Length(steps), Length(steps) + step.n).Cells() else {}
    ensures AllocatedAs(steps + [step], false)
         == AllocatedAs(steps, false)
            + if step.AllocInput? then Range(Length(steps), Length(steps) + step.n).Cells() else {}
  {
    assert (steps + [step])[..|steps|] == steps;
  }

  lemma MarkedNext(steps: seq<Step>, step: Step)
    ensures Touched(steps + [step], MadePublic) == Touched(steps, MadePublic) + MadePublic(step)
    ensures Touched(steps + [step], MadePrivate) == Touched(steps, MadePrivate) + MadePrivate(step)
    ensures Touched(steps + [step], MadeBlind) == Touched(steps, MadeBlind) + MadeBlind(step)
  {
    TouchedNext(steps, step, MadePublic);
    TouchedNext(steps, step, MadePrivate);
    TouchedNext(steps, step, MadeBlind);
  }

  lemma KnownNext(role: Role, steps: seq<Step>, step: Step)
    ensures DecodedKnown(role, steps + [step]) == DecodedKnown(role, steps) + ToDecode(step) * OfGarbler(role, steps)
  {
    assert (steps + [step])[..|steps|] == steps;
  }

  predicate Marks(step: Step) {
    step.MarkPublic? || step.MarkPrivate? || step.MarkBlind?
  }

  lemma MarkedForDecoding(s: State, r: Range)
    requires s.decodeComplete <= s.decodeAll
    ensures var t := DecodeAfter(s, r);
            t == s.(decodeAll := s.decodeAll + r.Cells(), flush := t.flush)
  {
    var undecoded := r.Cells() - s.decodeComplete;
    if undecoded == {} {
      forall i | i in r.Cells() ensures i in s.decodeAll {
        assert i !in undecoded;
      }
      assert s.decodeAll + r.Cells() == s.decodeAll;
    } else {
      assert s.decodeAll + undecoded == s.decodeAll + r.Cells();
    }
  }

  lemma VisibilityStep(steps: seq<Step>, s: State, step: Step)
    requires Valid(s) && VisibilityOf(steps, s.vis) && Accepts(s, step)
    ensures VisibilityOf(steps + [step], After(s, step).vis)
  {
    MarkedNext(steps, step);
    if Marks(step) {
      FreshRange(s.vis, step.r);
    }
  }

  lemma AllocationStep(steps: seq<Step>, s: State, step: Step)
    requires AllocationOf(steps, s) && Accepts(s, step)
    ensures AllocationOf(steps + [step], After(s, step))
  {
    AllocatedNext(steps, step);
  }

  lemma ProgressStep(steps: seq<Step>, s: State, step: Step)
    requires ProgressOf(steps, s) && s.decodeComplete <= s.decodeAll && Accepts(s, step)
    ensures ProgressOf(steps + [step], After(s, step))
  {
    TouchedNext(steps, step, Assigned);
    TouchedNext(steps, step, Preprocessed);
    TouchedNext(steps, step, Computed);
    TouchedNext(steps, step, ToDecode);
    if step.Decode? {
      MarkedForDecoding(s, step.r);
    }
  }

  lemma DeterminedStep(role: Role, steps: seq<Step>, s: State, step: Step)
    requires Valid(s) && Determined(role, steps, s) && s.decodeComplete <= s.decodeAll && Accepts(s, step)
    ensures Determined(role, steps + [step], After(s, step))
  {
    VisibilityStep(steps, s, step);
    AllocationStep(steps, s, step);
    ProgressStep(steps, s, step);
  }

  lemma CommitsMark(role: Role, steps: seq<Step>, s: State, step: Step)
    requires Valid(s) && Determined(role, steps, s) && CommitsKept(role, steps, s) && Accepts(s, step) && Marks(step)
    ensures CommitsKept(role, steps + [step], After(s, step))
  {
    MarkedNext(steps, step);
    TouchedNext(steps, step, Committed);
    FreshRange(s.vis, step.r);
    assert Touched(steps, Committed) !! step.r.Cells();
    assert step.r.Cells() <= Range(0, s.len).Cells();
  }

  /** Committing cells that are not complete adds them to what is about to be sent, each in its own way. */
  lemma MoreCommitted(committed: set<nat>, sent: set<nat>, complete: set<nat>, c: set<nat>)
    requires c !! complete
    ensures (committed + c) * sent - complete == (committed * sent - complete) + c * sent
  {
  }

  lemma CommitCells(steps: seq<Step>, s: State, r: Range)
    requires Valid(s) && VisibilityOf(steps, s.vis) && Accepts(s, Commit(r))
    ensures r.Cells() <= Marked(steps) && r.Cells() !! s.inputComplete
  {
    forall i | i in r.Cells() ensures i in Marked(steps) {
      assert i in Range(0, s.vis.len).Cells();
    }
  }

  lemma CommitsCommit(role: Role, steps: seq<Step>, s: State, r: Range)
    requires Valid(s) && Determined(role, steps, s) && CommitsKept(role, steps, s) && Accepts(s, Commit(r))
    ensures CommitsKept(role, steps + [Commit(r)], CommitAfter(s, r))
  {
    MarkedNext(steps, Commit(r));
    TouchedNext(steps, Commit(r), Committed);
    CommitCells(steps, s, r);
    var committed, c := Touched(steps, Committed), r.Cells();
    MoreCommitted(committed, Touched(steps, MadePublic) + OfGarbler(role, steps), s.inputComplete, c);
    MoreCommitted(committed, OfEvaluator(role, steps), s.inputComplete, c);
    assert c * (Touched(steps, MadePublic) + OfGarbler(role, steps))
        == c * Touched(steps, MadePublic) + c * OfGarbler(role, steps);
  }

  lemma CommitsAlloc(role: Role, steps: seq<Step>, s: State, step: Step)
    requires Valid(s) && Determined(role, steps, s) && CommitsKept(role, steps, s) && Accepts(s, step)
    requires step.AllocInput? || step.AllocOutput?
    ensures CommitsKept(role, steps + [step], After(s, step))
  {
    MarkedNext(steps, step);
    TouchedNext(steps, step, Committed);
    forall i | i in Marked(steps) ensures i !in Range(s.vis.len, s.vis.len + step.n).Cells() {
      assert i in Range(0, s.vis.len).Cells();
    }
  }

  lemma CommitsFlush(role: Role, steps: seq<Step>, s: State)
    requires Determined(role, steps, s) && CommitsKept(role, steps, s)
    ensures CommitsKept(role, steps + [CompleteFlush], Flushed(s))
  {
    MarkedNext(steps, CompleteFlush);
    TouchedNext(steps, CompleteFlush, Committed);
    var committed := Touched(steps, Committed);
    forall i | i in committed ensures i in s.inputComplete + s.flush.macs + s.flush.ot {
      assert i in Marked(steps);
    }
    assert Flushed(s).inputComplete == committed;
  }

  lemma CommitsOther(role: Role, steps: seq<Step>, s: State, step: Step)
    requires Determined(role, steps, s) && CommitsKept(role, steps, s) && Accepts(s, step)
    requires step.Assign? || step.SetPreprocessed? || step.SetOutput? || step.Decode?
    ensures CommitsKept(role, steps + [step], After(s, step))
  {
    MarkedNext(steps, step);
    TouchedNext(steps, step, Committed);
  }

  lemma CommitsStep(role: Role, steps: seq<Step>, s: State, step: Step)
    requires Valid(s) && Determined(role, steps, s) && CommitsKept(role, steps, s) && Accepts(s, step)
    ensures CommitsKept(role, steps + [step], After(s, step))
  {
    if Marks(step) {
      CommitsMark(role, steps, s, step);
    } else if step.Commit? {
      CommitsCommit(role, steps, s, step.r);
    } else if step.CompleteFlush? {
      CommitsFlush(role, steps, s);
    } else if step.AllocInput? || step.AllocOutput? {
      CommitsAlloc(role, steps, s, step);
    } else {
      CommitsOther(role, steps, s, step);
    }
  }

  lemma ReadyDecode(s: State, r: Range)
    requires Valid(s) && DecodesOnlyReady(s)
    ensures DecodesOnlyReady(DecodeAfter(s, r))
  {
    var t := DecodeAfter(s, r);
    MarkedForDecoding(s, r);
    forall i | i in t.decodeComplete + t.flush.decode
      ensures i in t.decodeAll * (s.outputComplete + s.inputComplete * EvaluatorInputs(s)) {
      if i !in s.decodeComplete + s.flush.decode && i in s.inputComplete {
        assert i in Range(0, s.len).Cells();
      }
    }
  }

  lemma ReadyFlush(role: Role, steps: seq<Step>, s: State)
    requires Determined(role, steps, s) && CommitsKept(role, steps, s) && DecodesOnlyReady(s)
        && InfoExact(role, steps, s) && DecodedKnown(role, steps) <= s.decodeAll
    ensures DecodesOnlyReady(Flushed(s))
  {
  }

  lemma ReadyStep(role: Role, steps: seq<Step>, s: State, step: Step)
    requires Valid(s) && Accepts(s, step) && Determined(role, steps, s) && CommitsKept(role, steps, s)
    requires DecodesOnlyReady(s) && InfoExact(role, steps, s) && DecodedKnown(role, steps) <= s.decodeAll
    ensures DecodesOnlyReady(After(s, step))
  {
    if Marks(step) {
      FreshRange(s.vis, step.r);
      assert s.inputComplete !! step.r.Cells();
    } else if step.Decode? {
      ReadyDecode(s, step.r);
    } else if step.CompleteFlush? {
      ReadyFlush(role, steps, s);
    } else if step.AllocInput? || step.AllocOutput? {
      var added := Range(s.len, s.len + step.n).Cells();
      assert added !! Range(0, s.len).Cells();
    }
  }

  lemma MoreInfo(info: set<nat>, next: set<nat>, more: set<nat>, marked: set<nat>, preprocessed: set<nat>,
                 known: set<nat>, c: set<nat>)
    requires info + next == marked * preprocessed + known
    requires more <= c * marked && c * marked <= info + next + more
    ensures info + (next + more) == marked * (preprocessed + c) + known
  {
    forall i | i in marked * (preprocessed + c) + known ensures i in info + (next + more) {
      assert i in marked * preprocessed + known || i in c * marked;
    }
    forall i | i in info + (next + more) ensures i in marked * (preprocessed + c) + known {
      assert i in info + next || i in more;
    }
  }

  lemma InfoPreprocessed(role: Role, steps: seq<Step>, s: State, r: Range)
    requires InfoExact(role, steps, s) && r.Cells() <= s.outputAll
    ensures InfoExact(role, steps + [SetPreprocessed(r)], PreprocessedAfter(s, r))
  {
    KnownNext(role, steps, SetPreprocessed(r));
    var c := r.Cells();
    var more := c * s.decodeAll - s.decodeComplete;
    forall i | i in c * s.decodeAll ensures i in s.decodeInfo + s.flush.decodeInfo + more {
      if i in s.decodeComplete {
        assert i in (s.decodeComplete + s.flush.decode) * s.outputAll;
      }
    }
    MoreInfo(s.decodeInfo, s.flush.decodeInfo, more, s.decodeAll, s.preprocessed, DecodedKnown(role, steps), c);
  }

  lemma InfoOutput(role: Role, steps: seq<Step>, s: State, r: Range)
    requires InfoExact(role, steps, s) && r.Cells() <= s.outputAll
    ensures InfoExact(role, steps + [SetOutput(r)], OutputAfter(s, r))
  {
    KnownNext(role, steps, SetOutput(r));
    var c := r.Cells();
    var more := c * s.decodeAll - s.decodeInfo;
    MoreInfo(s.decodeInfo, s.flush.decodeInfo, more, s.decodeAll, s.preprocessed, DecodedKnown(role, steps), c);
    var t := OutputAfter(s, r);
    forall i | i in (t.decodeComplete + t.flush.decode) * t.outputAll
      ensures i in t.decodeInfo + t.flush.decodeInfo {
      assert i in s.decodeInfo || i in (s.decodeComplete + s.flush.decode) * s.outputAll;
    }
  }

  /** What a decode adds to the decoding information: the range's preprocessed outputs and garbler's inputs. */
  lemma InfoDecode(role: Role, steps: seq<Step>, s: State, r: Range)
    requires Valid(s) && Determined(role, steps, s) && CommitsKept(role, steps, s) && DecodesOnlyReady(s)
    requires InfoExact(role, steps, s)
    ensures InfoExact(role, steps + [Decode(r)], DecodeAfter(s, r))
  {
    if forall i | i in r.Cells() :: i in s.decodeComplete {
      InfoDecoded(role, steps, s, r);
    } else {
      InfoUndecoded(role, steps, s, r);
    }
  }

  /** A range that is decoded already holds no input of the garbler. */
  lemma InfoDecoded(role: Role, steps: seq<Step>, s: State, r: Range)
    requires Valid(s) && Determined(role, steps, s) && CommitsKept(role, steps, s) && DecodesOnlyReady(s)
    requires InfoExact(role, steps, s) && forall i | i in r.Cells() :: i in s.decodeComplete
    ensures InfoExact(role, steps + [Decode(r)], DecodeAfter(s, r))
  {
    KnownNext(role, steps, Decode(r));
    assert r.Cells() - s.decodeComplete == {};
    forall i | i in r.Cells() ensures i !in OfGarbler(role, steps) {
      assert i in s.decodeAll * (s.outputComplete + s.inputComplete * EvaluatorInputs(s));
    }
    assert ToDecode(Decode(r)) * OfGarbler(role, steps) == {};
  }

  lemma InfoUndecoded(role: Role, steps: seq<Step>, s: State, r: Range)
    requires Valid(s) && Determined(role, steps, s) && CommitsKept(role, steps, s) && DecodesOnlyReady(s)
    requires InfoExact(role, steps, s) && exists i :: i in r.Cells() && i !in s.decodeComplete
    ensures InfoExact(role, steps + [Decode(r)], DecodeAfter(s, r))
  {
    KnownNext(role, steps, Decode(r));
    MarkedForDecoding(s, r);
    var i :| i in r.Cells() && i !in s.decodeComplete;
    assert i in r.Cells() - s.decodeComplete;
    DecodedInfo(s.decodeInfo, s.flush.decodeInfo, s.decodeAll, s.preprocessed, s.inputAll, s.outputAll,
                DecodedKnown(role, steps), r.Cells(), OfGarbler(role, steps));
  }

  lemma DecodedInfo(info: set<nat>, next: set<nat>, marked: set<nat>, preprocessed: set<nat>, inputs: set<nat>,
                    outputs: set<nat>, known: set<nat>, c: set<nat>, garblers: set<nat>)
    requires info + next == marked * preprocessed + known && preprocessed <= outputs && garblers <= inputs
    ensures info + (next + ((c * inputs * garblers + c * outputs * preprocessed) - info))
         == (marked + c) * preprocessed + (known + c * garblers)
  {
    assert c * inputs * garblers == c * garblers && c * outputs * preprocessed == c * preprocessed;
    assert (marked + c) * preprocessed == marked * preprocessed + c * preprocessed;
  }

  lemma InfoFlush(role: Role, steps: seq<Step>, s: State)
    requires CommitsKept(role, steps, s) && DecodesOnlyReady(s) && InfoExact(role, steps, s)
    ensures InfoExact(role, steps + [CompleteFlush], Flushed(s))
  {
    KnownNext(role, steps, CompleteFlush);
    assert s.flush.ot <= s.inputAll;
  }

  lemma InfoAlloc(role: Role, steps: seq<Step>, s: State, step: Step)
    requires Valid(s) && Accepts(s, step) && DecodesOnlyReady(s) && InfoExact(role, steps, s)
    requires step.AllocInput? || step.AllocOutput?
    ensures InfoExact(role, steps + [step], After(s, step))
  {
    KnownNext(role, steps, step);
    var added := Range(s.len, s.len + step.n).Cells();
    assert added !! Range(0, s.len).Cells();
  }

  lemma InfoStep(role: Role, steps: seq<Step>, s: State, step: Step)
    requires Valid(s) && Accepts(s, step) && Determined(role, steps, s) && CommitsKept(role, steps, s)
    requires DecodesOnlyReady(s) && InfoExact(role, steps, s)
    ensures InfoExact(role, steps + [step], After(s, step))
  {
    match step
    case SetPreprocessed(r) => InfoPreprocessed(role, steps, s, r);
    case SetOutput(r) => InfoOutput(role, steps, s, r);
    case Decode(r) => InfoDecode(role, steps, s, r);
    case CompleteFlush => InfoFlush(role, steps, s);
    case AllocInput(_) => InfoAlloc(role, steps, s, step);
    case AllocOutput(_) => InfoAlloc(role, steps, s, step);
    case _ => KnownNext(role, steps, step);
  }

  /** After any accepted steps, in any order, the view is what the steps say. */
  lemma {:induction false} HistoryDetermines(role: Role, steps: seq<Step>, s: State)
    requires StateAfter(role, steps) == Some(s)
    ensures Valid(s) && Determined(role, steps, s) && CommitsKept(role, steps, s)
    ensures DecodesOnlyReady(s) && InfoExact(role, steps, s) && DecodedKnown(role, steps) <= s.decodeAll
    decreases |steps|
  {
    if steps == [] {
      InitialValid(role);
    } else {
      var before, step := steps[..|steps| - 1], steps[|steps| - 1];
      var t := StateAfter(role, before).value;
      HistoryDetermines(role, before, t);
      LastStep(steps);
      StepValid(t, step);
      DeterminedStep(role, before, t, step);
      CommitsStep(role, before, t, step);
      ReadyStep(role, before, t, step);
      InfoStep(role, before, t, step);
      KnownNext(role, before, step);
      TouchedNext(before, step, ToDecode);
    }
  }

  // What the steps lead to.

  lemma FlushMarksNothing(role: Role, steps: seq<Step>)
    ensures DecodedKnown(role, steps + [CompleteFlush]) == DecodedKnown(role, steps)
    ensures OfEvaluator(role, steps + [CompleteFlush]) == OfEvaluator(role, steps)
  {
    MarkedNext(steps, CompleteFlush);
    KnownNext(role, steps, CompleteFlush);
  }

  lemma FlushTouchesNothing(steps: seq<Step>)
    ensures var more := steps + [CompleteFlush];
      && Touched(more, Committed) == Touched(steps, Committed) && Touched(more, Computed) == Touched(steps, Computed)
      && Touched(more, Preprocessed) == Touched(steps, Preprocessed)
      && Touched(more, ToDecode) == Touched(steps, ToDecode)
  {
    TouchedNext(steps, CompleteFlush, Committed);
    TouchedNext(steps, CompleteFlush, Computed);
    TouchedNext(steps, CompleteFlush, Preprocessed);
    TouchedNext(steps, CompleteFlush, ToDecode);
  }

  lemma FlushAccepted(role: Role, steps: seq<Step>, s: State)
    requires StateAfter(role, steps) == Some(s)
    ensures StateAfter(role, steps + [CompleteFlush]) == Some(Flushed(s))
  {
    assert (steps + [CompleteFlush])[..|steps|] == steps;
  }

  /** After any accepted steps and two flushes nothing is left to flush; everything committed is complete; what is
      decoded is exactly what was marked for decoding and was computed, or committed by the evaluator; and decoding
      information was sent for exactly what was marked for decoding and preprocessed, and for the garbler's inputs
      marked for decoding after they were marked as inputs. */
  lemma FlushedHistory(role: Role, steps: seq<Step>, s: State)
    requires StateAfter(role, steps) == Some(s)
    ensures var t := Flushed(Flushed(s));
      && StateAfter(role, steps + [CompleteFlush, CompleteFlush]) == Some(t) && t.flush.IsEmpty()
      && t.inputComplete == Touched(steps, Committed) && t.outputComplete == Touched(steps, Computed)
      && t.decodeComplete
         == Touched(steps, ToDecode) * (Touched(steps, Computed) + Touched(steps, Committed) * OfEvaluator(role, steps))
      && t.decodeInfo == Touched(steps, ToDecode) * Touched(steps, Preprocessed) + DecodedKnown(role, steps)
  {
    var u, t := Flushed(s), Flushed(Flushed(s));
    var more := steps + [CompleteFlush];
    FlushAccepted(role, steps, s);
    FlushAccepted(role, more, u);
    FlushMarksNothing(role, steps);
    FlushMarksNothing(role, more);
    FlushTouchesNothing(steps);
    FlushTouchesNothing(more);
    assert steps + [CompleteFlush, CompleteFlush] == more + [CompleteFlush];
    HistoryDetermines(role, steps, s);
    HistoryDetermines(role, more, u);
    HistoryDetermines(role, more + [CompleteFlush], t);
    AllCommitted(role, more, u);
    AllCommitted(role, more + [CompleteFlush], t);
    EmptyDecodes(t);
  }

  /** With nothing left to flush, everything committed is complete. */
  lemma AllCommitted(role: Role, steps: seq<Step>, s: State)
    requires CommitsKept(role, steps, s) && s.flush.macs == {} && s.flush.ot == {}
    ensures s.inputComplete == Touched(steps, Committed)
  {
    var committed := Touched(steps, Committed);
    forall i | i in committed ensures i in s.inputComplete {
      assert i in Marked(steps);
      assert i !in s.flush.macs && i !in s.flush.ot;
    }
  }

  lemma EmptyDecodes(s: State)
    requires Valid(s) && DecodesOnlyReady(s) && s.flush.IsEmpty()
    ensures s.decodeComplete == s.decodeAll * (s.outputComplete + s.inputComplete * EvaluatorInputs(s))
  {
    forall i | i in s.decodeAll * (s.outputComplete + s.inputComplete * EvaluatorInputs(s))
      ensures i in s.decodeComplete {
      EmptyFlushDecoded(s, i);
    }
  }

  /** Every committed range is complete once flushed. */
  lemma CommitCompletes(role: Role, steps: seq<Step>, s: State, k: nat)
    requires StateAfter(role, steps) == Some(s) && k < |steps| && steps[k].Commit?
    ensures steps[k].r.Cells() <= Flushed(Flushed(s)).inputComplete
  {
    FlushedHistory(role, steps, s);
    TouchedBy(steps, Committed, k);
  }

  /** A range that was computed, and marked for decoding before or after, is decoded once flushed. */
  lemma OutputDecoded(role: Role, steps: seq<Step>, s: State, j: nat, k: nat)
    requires StateAfter(role, steps) == Some(s) && j < |steps| && k < |steps|
    requires steps[j].SetOutput? && steps[k].Decode?
    ensures steps[j].r.Cells() * steps[k].r.Cells() <= Flushed(Flushed(s)).decodeComplete
  {
    FlushedHistory(role, steps, s);
    TouchedBy(steps, Computed, j);
    TouchedBy(steps, ToDecode, k);
  }

  /** So is an input of the evaluator that was committed. */
  lemma InputDecoded(role: Role, steps: seq<Step>, s: State, j: nat, k: nat)
    requires StateAfter(role, steps) == Some(s) && j < |steps| && k < |steps|
    requires steps[j].Commit? && steps[k].Decode?
    ensures steps[j].r.Cells() * steps[k].r.Cells() * OfEvaluator(role, steps) <= Flushed(Flushed(s)).decodeComplete
  {
    FlushedHistory(role, steps, s);
    TouchedBy(steps, Committed, j);
    TouchedBy(steps, ToDecode, k);
  }

  /** An input of the garbler gets its decoding information if and only if it was marked for decoding when it was
      already marked as the garbler's. */
  lemma GarblerInputDecodedIff(role: Role, steps: seq<Step>, s: State, i: nat)
    requires StateAfter(role, steps) == Some(s) && i in OfGarbler(role, steps)
    ensures i in Flushed(Flushed(s)).decodeInfo <==> i in DecodedKnown(role, steps)
  {
    HistoryDetermines(role, steps, s);
    FlushedHistory(role, steps, s);
    assert i in s.inputAll && i !in s.preprocessed;
  }

  lemma TakesStep(role: Role, steps: seq<Step>, s: State, step: Step)
    requires StateAfter(role, steps) == Some(s) && Accepts(s, step)
    ensures StateAfter(role, steps + [step]) == Some(After(s, step))
  {
    assert (steps + [step])[..|steps|] == steps;
  }

  /** One input of the garbler, marked for decoding first and as the garbler's second. */
  function DecodeFirst(): seq<Step> {
    [AllocInput(1), Decode(Range(0, 1)), MarkPrivate(Range(0, 1)), Assign(Range(0, 1)), Commit(Range(0, 1))]
  }

  /** An allocated, unmarked cell is marked for decoding and then as the garbler's. */
  lemma DecodeThenMark() returns (s: State)
    ensures StateAfter(Garbler, DecodeFirst()[..3]) == Some(s) && s.vis.uninit == {}
        && s.vis.priv == s.vis.visible == {0}
    ensures s.vis.len == 1 && s.vis.public == s.vis.blind == {} && s.outputAll == s.inputComplete == {}
    ensures s.flush.IsEmpty() && s.decodeInfo == {} && s.role == Garbler
  {
    var r, steps := Range(0, 1), DecodeFirst();
    assert r.Cells() == {0};
    var s0 := GarbleView.Initial(Garbler);
    TakesStep(Garbler, [], s0, AllocInput(1));
    var s1 := After(s0, AllocInput(1));
    TakesStep(Garbler, [] + [AllocInput(1)], s1, Decode(r));
    var s2 := After(s1, Decode(r));
    TakesStep(Garbler, [] + [AllocInput(1)] + [Decode(r)], s2, MarkPrivate(r));
    s := After(s2, MarkPrivate(r));
    assert steps[..3] == [] + [AllocInput(1)] + [Decode(r)] + [MarkPrivate(r)];
  }

  /** All of its steps are accepted, and no decoding information is ever sent for it. */
  lemma DecodeFirstLost() returns (s: State)
    ensures StateAfter(Garbler, DecodeFirst()) == Some(s) && 0 in Touched(DecodeFirst(), ToDecode)
    ensures Flushed(Flushed(s)).decodeInfo == {} && Flushed(Flushed(s)).inputComplete == {0}
  {
    var r, steps := Range(0, 1), DecodeFirst();
    assert r.Cells() == {0};
    var s3 := DecodeThenMark();
    TakesStep(Garbler, steps[..3], s3, Assign(r));
    var s4 := After(s3, Assign(r));
    assert steps[..3] + [Assign(r)] == steps[..4];
    TakesStep(Garbler, steps[..4], s4, Commit(r));
    s := After(s4, Commit(r));
    assert steps[..4] + [Commit(r)] == steps;
    TouchedBy(steps, ToDecode, 1);
  }

  /** Which steps are accepted, in terms of the steps before: a visibility is set once and only on inputs, values are
      assigned to what the party sees, only outputs are preprocessed or computed, and a range is committed when all of
      it has a visibility, what the party sees of it was assigned, and none of it is complete. */
  predicate Acceptable(steps: seq<Step>, complete: set<nat>, step: Step) {
    match step
    case MarkPublic(r) => Markable(steps, r)
    case MarkPrivate(r) => Markable(steps, r)
    case MarkBlind(r) => Markable(steps, r)
    case Assign(r) =>
      r.Cells() <= Touched(steps, MadePublic) + Touched(steps, MadePrivate) && r.Cells() !! AllocatedAs(steps, true)
    case SetPreprocessed(r) => r.Cells() <= AllocatedAs(steps, true)
    case SetOutput(r) => r.Cells() <= AllocatedAs(steps, true)
    case Commit(r) =>
      && r.end <= Length(steps) && r.Cells() <= Marked(steps) && r.Cells() !! AllocatedAs(steps, true)
      && r.Cells() !! complete
      && r.Cells() * (Touched(steps, MadePublic) + Touched(steps, MadePrivate)) <= Touched(steps, Assigned)
    case _ => true
  }

  predicate Markable(steps: seq<Step>, r: Range) {
    r.end <= Length(steps) && r.Cells() !! Marked(steps) && r.Cells() !! AllocatedAs(steps, true)
  }

  lemma MarkAccepted(role: Role, steps: seq<Step>, s: State, r: Range)
    requires Valid(s) && Determined(role, steps, s)
    ensures MarkError(s, r).None? && r.end <= s.vis.len <==> Markable(steps, r)
  {
    if r.end <= s.vis.len {
      if s.vis.IsSetAny(r) {
        var i :| i in Range(r.start, r.end).Cells() - s.vis.uninit;
        assert i in Range(0, s.vis.len).Cells() && i in r.Cells() * Marked(steps);
      } else {
        FreshRange(s.vis, r);
      }
    }
  }

  lemma CommitAccepted(role: Role, steps: seq<Step>, s: State, r: Range)
    requires Valid(s) && Determined(role, steps, s)
    ensures CommitError(s, r).None? <==> Acceptable(steps, s.inputComplete, Commit(r))
  {
    if r.end <= s.vis.len {
      assert r.Cells() <= Range(0, s.vis.len).Cells();
      assert r.Cells() !! s.vis.uninit <==> r.Cells() <= Marked(steps);
    }
  }

  lemma AssignAccepted(role: Role, steps: seq<Step>, s: State, r: Range)
    requires Valid(s) && Determined(role, steps, s)
    ensures AssignError(s, r).None? <==> Acceptable(steps, s.inputComplete, Assign(r))
  {
  }

  lemma OtherAccepted(role: Role, steps: seq<Step>, s: State, step: Step)
    requires Determined(role, steps, s) && !step.MarkPublic? && !step.MarkPrivate? && !step.MarkBlind?
    requires !step.Assign? && !step.Commit?
    ensures Accepts(s, step) <==> Acceptable(steps, s.inputComplete, step)
  {
  }

  lemma AcceptedIff(role: Role, steps: seq<Step>, s: State, step: Step)
    requires StateAfter(role, steps) == Some(s)
    ensures Accepts(s, step) <==> Acceptable(steps, s.inputComplete, step)
  {
    HistoryDetermines(role, steps, s);
    match step
    case MarkPublic(r) => MarkAccepted(role, steps, s, r);
    case MarkPrivate(r) => MarkAccepted(role, steps, s, r);
    case MarkBlind(r) => MarkAccepted(role, steps, s, r);
    case Commit(r) => CommitAccepted(role, steps, s, r);
    case Assign(r) => AssignAccepted(role, steps, s, r);
    case _ => OtherAccepted(role, steps, s, step);
  }
}
