/** The thread pool's wake-up protocol: workers announce, recheck and park; producers push, scan, claim and unpark. */
module ThreadPool {
  import opened Bits
  import opened Results

  type Task = nat

  /** Where a worker is. `again` tells the recheck after the announcement from the first search. */
  datatype WorkerPc =
    | FindLocal(again: bool)
    | FindInjector(again: bool)
    | FindVictim(i: nat, again: bool)
    | Announce
    | Parking
    | Retract(found: Option<Task>)
    | Running(task: Task)

  /** Where a producer is: outside, about to load a flag, about to claim a worker, about to unpark it. */
  datatype ProducerPc = Idle | Scanning(i: nat) | Trying(i: nat) | Claimed(i: nat)

  datatype Pool = Pool(injector: seq<Task>, locals: seq<seq<Task>>, workers: seq<WorkerPc>, parked: seq<bool>,
                       tokens: seq<bool>, producers: seq<ProducerPc>)
  {
    predicate Shaped() {
      |locals| == |workers| == |parked| == |tokens|
    }
  }

  datatype Action =
    | PopLocal(w: nat) | LocalEmpty(w: nat)
    | StealInjector(w: nat, k: nat) | InjectorEmpty(w: nat)
    | StealVictim(w: nat, k: nat) | VictimEmpty(w: nat)
    | SetParked(w: nat) | ClearParked(w: nat) | ReturnFromPark(w: nat) | FinishTask(w: nat)
    | Push(p: nat, task: Task) | Load(p: nat) | CompareExchange(p: nat) | Unpark(p: nat)

  predicate ByWorker(a: Action) {
    !a.Push? && !a.Load? && !a.CompareExchange? && !a.Unpark?
  }

  function Victim(w: nat, i: nat, n: nat): nat
    requires n > 0
  {
    (w + i) % n
  }

  /** After a search found `t`: the recheck first withdraws the announcement. */
  function Found(t: Task, again: bool): WorkerPc {
    if again then Retract(Some(t)) else Running(t)
  }

  /** After a search found nothing. */
  function NotFound(again: bool): WorkerPc {
    if again then Parking else Announce
  }

  /** After seeing the injector, or victim `i - 1`, empty. */
  function TryVictim(i: nat, n: nat, again: bool): WorkerPc {
    if i < n then FindVictim(i, again) else NotFound(again)
  }

  predicate Enabled(s: Pool, a: Action)
    requires s.Shaped()
  {
    if ByWorker(a) then
      a.w < |s.workers| &&
      var pc := s.workers[a.w];
      match a
      case PopLocal(w) => pc.FindLocal? && s.locals[w] != []
      case LocalEmpty(w) => pc.FindLocal? && s.locals[w] == []
      case StealInjector(w, k) => pc.FindInjector? && 1 <= k <= |s.injector|
      case InjectorEmpty(w) => pc.FindInjector? && s.injector == []
      case StealVictim(w, k) => pc.FindVictim? && 1 <= k <= |s.locals[Victim(w, pc.i, |s.workers|)]|
      case VictimEmpty(w) => pc.FindVictim? && s.locals[Victim(w, pc.i, |s.workers|)] == []
      case SetParked(w) => pc.Announce?
      case ClearParked(w) => pc.Retract?
      case ReturnFromPark(w) => pc.Parking? && s.tokens[w]
      case FinishTask(w) => pc.Running?
    else
      a.p < |s.producers| &&
      var pc := s.producers[a.p];
      match a
      case Push(p, t) => pc.Idle?
      case Load(p) => pc.Scanning? && pc.i <= |s.workers|
      case CompareExchange(p) => pc.Trying? && pc.i < |s.workers|
      case Unpark(p) => pc.Claimed? && pc.i < |s.workers|
  }

  function Apply(s: Pool, a: Action): (r: Pool)
    requires s.Shaped() && Enabled(s, a)
    ensures r.Shaped() && |r.workers| == |s.workers| && |r.producers| == |s.producers|
  {
    match a
    case PopLocal(w) =>
      s.(locals := s.locals[w := s.locals[w][1..]],
         workers := s.workers[w := Found(s.locals[w][0], s.workers[w].again)])
    case LocalEmpty(w) =>
      s.(workers := s.workers[w := FindInjector(s.workers[w].again)])
    case StealInjector(w, k) =>
      s.(injector := s.injector[k..], locals := s.locals[w := s.locals[w] + s.injector[1..k]],
         workers := s.workers[w := Found(s.injector[0], s.workers[w].again)])
    case InjectorEmpty(w) =>
      s.(workers := s.workers[w := TryVictim(1, |s.workers|, s.workers[w].again)])
    case StealVictim(w, k) =>
      var v := Victim(w, s.workers[w].i, |s.workers|);
      s.(locals := s.locals[v := s.locals[v][k..]][w := s.locals[w] + s.locals[v][1..k]],
         workers := s.workers[w := Found(s.locals[v][0], s.workers[w].again)])
    case VictimEmpty(w) =>
      s.(workers := s.workers[w := TryVictim(s.workers[w].i + 1, |s.workers|, s.workers[w].again)])
    case SetParked(w) =>
      s.(parked := s.parked[w := true], workers := s.workers[w := FindLocal(true)])
    case ClearParked(w) =>
      var found := s.workers[w].found;
      s.(parked := s.parked[w := false],
         workers := s.workers[w := if found.Some? then Running(found.value) else FindLocal(false)])
    case ReturnFromPark(w) =>
      s.(tokens := s.tokens[w := false], workers := s.workers[w := Retract(None)])
    case FinishTask(w) =>
      s.(workers := s.workers[w := FindLocal(false)])
    case Push(p, t) =>
      s.(injector := s.injector + [t], producers := s.producers[p := Scanning(0)])
    case Load(p) =>
      var i := s.producers[p].i;
      s.(producers := s.producers[p := if i == |s.workers| then Idle else if s.parked[i] then Trying(i)
        else Scanning(i + 1)])
    case CompareExchange(p) =>
      var i := s.producers[p].i;
      if s.parked[i] then s.(parked := s.parked[i := false], producers := s.producers[p := Claimed(i)])
      else s.(producers := s.producers[p := Scanning(i + 1)])
    case Unpark(p) =>
      s.(tokens := s.tokens[s.producers[p].i := true], producers := s.producers[p := Idle])
  }

  /** `n` workers about to look for work, and `m` producers that have pushed nothing. */
  function Initial(n: nat, m: nat): Pool {
    Pool([], seq(n, _ => []), seq(n, _ => FindLocal(false)), seq(n, _ => false), seq(n, _ => false), seq(m, _ => Idle))
  }

  /** The states some interleaving of steps leads to. */
  ghost predicate Reaches(s: Pool, actions: seq<Action>, r: Pool)
    decreases |actions|
  {
    if actions == [] then r == s
    else s.Shaped() && Enabled(s, actions[0]) && Reaches(Apply(s, actions[0]), actions[1..], r)
  }

  // The invariant.

  /** The worker has announced itself, and has not yet left `park` or withdrawn. */
  predicate Announced(pc: WorkerPc) {
    pc.Parking? || ((pc.FindLocal? || pc.FindInjector? || pc.FindVictim?) && pc.again)
  }

  /** The worker saw the injector empty in its recheck and nothing has called it since. */
  predicate Sleepy(s: Pool, w: nat)
    requires s.Shaped() && w < |s.workers|
  {
    (s.workers[w].Parking? || (s.workers[w].FindVictim? && s.workers[w].again)) && !s.tokens[w]
  }

  /** The worker looked at its own queue, found it empty, and has taken nothing since. */
  predicate SawLocalEmpty(pc: WorkerPc) {
    pc.FindInjector? || pc.FindVictim? || pc.Announce? || pc.Parking? || (pc.FindLocal? && pc.again)
      || pc == Retract(None)
  }

  ghost predicate ClaimedBy(s: Pool, w: nat) {
    exists p :: 0 <= p < |s.producers| && s.producers[p] == Claimed(w)
  }

  /** A producer that will wake a worker if all of them are sleepy. */
  predicate WillWake(pc: ProducerPc) {
    pc == Scanning(0) || pc == Trying(0) || pc.Claimed?
  }

  predicate InBounds(s: Pool) {
    && (forall w | 0 <= w < |s.workers| :: s.workers[w].FindVictim? ==> 1 <= s.workers[w].i < |s.workers|)
    && forall p | 0 <= p < |s.producers| ::
      && (s.producers[p].Scanning? ==> s.producers[p].i <= |s.workers|)
      && (s.producers[p].Trying? || s.producers[p].Claimed? ==> s.producers[p].i < |s.workers|)
  }

  /** An announced worker's flag is up, or a producer claimed it and the token is on its way or there. */
  ghost predicate FlagsKept(s: Pool)
    requires s.Shaped()
  {
    forall w: nat | w < |s.workers| && Announced(s.workers[w]) :: s.parked[w] || s.tokens[w] || ClaimedBy(s, w)
  }

  predicate LocalsKept(s: Pool)
    requires s.Shaped()
  {
    forall w: nat | w < |s.workers| && SawLocalEmpty(s.workers[w]) :: s.locals[w] == []
  }

  ghost predicate AllSleepy(s: Pool)
    requires s.Shaped()
  {
    forall w: nat | w < |s.workers| :: Sleepy(s, w)
  }

  ghost predicate SomeoneWillWake(s: Pool) {
    exists p :: 0 <= p < |s.producers| && WillWake(s.producers[p])
  }

  ghost predicate Invariant(s: Pool) {
    && s.Shaped() && |s.workers| >= 1 && InBounds(s) && LocalsKept(s) && FlagsKept(s)
    && (s.injector != [] && AllSleepy(s) ==> SomeoneWillWake(s))
  }

  lemma InitialInvariant(n: nat, m: nat)
    requires n >= 1
    ensures Invariant(Initial(n, m))
  {
  }

  lemma BoundsStep(s: Pool, a: Action)
    requires Invariant(s) && Enabled(s, a)
    ensures InBounds(Apply(s, a))
  {
  }

  lemma LocalsStep(s: Pool, a: Action)
    requires Invariant(s) && Enabled(s, a)
    ensures LocalsKept(Apply(s, a))
  {
    var r := Apply(s, a);
    forall w: nat | w < |r.workers| && SawLocalEmpty(r.workers[w]) ensures r.locals[w] == [] {
      if ByWorker(a) && w == a.w {
      } else {
        assert r.workers[w] == s.workers[w];
      }
    }
  }

  lemma ClaimKept(s: Pool, a: Action, w: nat)
    requires Invariant(s) && Enabled(s, a) && ClaimedBy(s, w) && w < |s.workers|
    ensures ClaimedBy(Apply(s, a), w) || Apply(s, a).tokens[w]
  {
    var r := Apply(s, a);
    var p :| 0 <= p < |s.producers| && s.producers[p] == Claimed(w);
    if !a.Unpark? || a.p != p {
      assert r.producers[p] == Claimed(w);
    }
  }

  /** A worker becomes announced only by raising its flag. */
  lemma AnnouncedBefore(s: Pool, a: Action, w: nat)
    requires Invariant(s) && Enabled(s, a) && w < |s.workers| && Announced(Apply(s, a).workers[w])
    ensures Announced(s.workers[w]) || Apply(s, a).parked[w]
  {
  }

  /** An announced worker's flag is lowered only by the producer that claims the worker. */
  lemma FlagKept(s: Pool, a: Action, w: nat)
    requires Invariant(s) && Enabled(s, a) && w < |s.workers| && Announced(s.workers[w])
        && Announced(Apply(s, a).workers[w])
    ensures var r := Apply(s, a); r.parked[w] || r.tokens[w] || ClaimedBy(r, w)
  {
    var r := Apply(s, a);
    if s.parked[w] {
      if !r.parked[w] {
        assert a.CompareExchange?;
        assert r.producers[a.p] == Claimed(w);
      }
    } else if !s.tokens[w] {
      ClaimKept(s, a, w);
    }
  }

  lemma FlagsStep(s: Pool, a: Action)
    requires Invariant(s) && Enabled(s, a)
    ensures FlagsKept(Apply(s, a))
  {
    var r := Apply(s, a);
    forall w: nat | w < |r.workers| && Announced(r.workers[w]) ensures r.parked[w] || r.tokens[w] || ClaimedBy(r, w) {
      AnnouncedBefore(s, a, w);
      if Announced(s.workers[w]) {
        FlagKept(s, a, w);
      }
    }
  }

  /** A worker becomes sleepy only by seeing the injector empty. */
  lemma SleepyBefore(s: Pool, a: Action, w: nat)
    requires Invariant(s) && Enabled(s, a) && w < |s.workers|
    requires Sleepy(Apply(s, a), w) && !a.InjectorEmpty?
    ensures Sleepy(s, w)
  {
  }

  /** A producer passes over a sleepy worker only because another producer holds the claim on that worker. */
  lemma PassedOver(s: Pool, a: Action, w: nat)
    requires Invariant(s) && Enabled(s, a) && (a.Load? || a.CompareExchange?) && w < |s.workers| && Sleepy(s, w)
    requires s.producers[a.p] == Scanning(w) || s.producers[a.p] == Trying(w)
    ensures var r := Apply(s, a);
            || r.producers[a.p] == Trying(w) || r.producers[a.p] == Claimed(w)
            || exists p :: 0 <= p < |s.producers| && p != a.p && s.producers[p] == r.producers[p] == Claimed(w)
  {
    if !s.parked[w] {
      var p :| 0 <= p < |s.producers| && s.producers[p] == Claimed(w);
      assert Apply(s, a).producers[p] == Claimed(w);
    }
  }

  lemma WakeStep(s: Pool, a: Action)
    requires Invariant(s) && Enabled(s, a)
    ensures var r := Apply(s, a); r.injector != [] && AllSleepy(r) ==> SomeoneWillWake(r)
  {
    var r := Apply(s, a);
    if r.injector != [] && AllSleepy(r) {
      if a.Push? {
        assert WillWake(r.producers[a.p]);
      } else if !a.InjectorEmpty? {
        forall w: nat | w < |s.workers| ensures Sleepy(s, w) {
          SleepyBefore(s, a, w);
        }
        StillWakes(s, a);
      }
    }
  }

  lemma StillWakes(s: Pool, a: Action)
    requires Invariant(s) && Enabled(s, a) && !a.Push? && AllSleepy(s) && AllSleepy(Apply(s, a)) && SomeoneWillWake(s)
    ensures SomeoneWillWake(Apply(s, a))
  {
    var r := Apply(s, a);
    var p :| 0 <= p < |s.producers| && WillWake(s.producers[p]);
    if ByWorker(a) || a.p != p {
      assert r.producers[p] == s.producers[p];
    } else if a.Unpark? {
      UnparkRouses(s, a);
      assert false;
    } else {
      PassedOver(s, a, 0);
      assert r.producers[a.p] == Trying(0) || r.producers[a.p] == Claimed(0)
          || exists p :: 0 <= p < |s.producers| && r.producers[p] == Claimed(0);
    }
  }

  lemma UnparkRouses(s: Pool, a: Action)
    requires Invariant(s) && Enabled(s, a) && a.Unpark?
    ensures !AllSleepy(Apply(s, a))
  {
    assert !Sleepy(Apply(s, a), s.producers[a.p].i);
  }

  /** Every step keeps the invariant. */
  lemma InvariantStep(s: Pool, a: Action)
    requires Invariant(s) && Enabled(s, a)
    ensures Invariant(Apply(s, a))
  {
    BoundsStep(s, a);
    LocalsStep(s, a);
    FlagsStep(s, a);
    WakeStep(s, a);
  }

  lemma {:induction false} InvariantReached(s: Pool, actions: seq<Action>, r: Pool)
    requires Invariant(s) && Reaches(s, actions, r)
    ensures Invariant(r)
    decreases |actions|
  {
    if actions != [] {
      InvariantStep(s, actions[0]);
      InvariantReached(Apply(s, actions[0]), actions[1..], r);
    }
  }

  ghost predicate SomethingQueued(s: Pool) {
    s.injector != [] || exists w :: 0 <= w < |s.locals| && s.locals[w] != []
  }

  /** No producer is between its push and the end of its scan. */
  predicate ProducersIdle(s: Pool) {
    forall p | 0 <= p < |s.producers| :: s.producers[p].Idle?
  }

  /** A worker blocked in `park`. */
  predicate Blocked(s: Pool, w: nat)
    requires s.Shaped() && w < |s.workers|
  {
    s.workers[w].Parking? && !s.tokens[w]
  }

  /** No lost wake-up: in every interleaving, queued work with no producer still scanning leaves some worker
      that is not blocked; queued work in the injector leaves one that will look at the injector again or
      holds a token; and a blocked worker's own queue is empty. */
  lemma NoLostWakeup(n: nat, m: nat, actions: seq<Action>, r: Pool)
    requires n >= 1 && Reaches(Initial(n, m), actions, r)
    ensures r.Shaped() && |r.workers| >= 1
    ensures SomethingQueued(r) && ProducersIdle(r) ==> exists w: nat :: w < |r.workers| && !Blocked(r, w)
    ensures r.injector != [] && ProducersIdle(r) ==> exists w: nat :: w < |r.workers| && !Sleepy(r, w)
    ensures forall w: nat | w < |r.workers| && Blocked(r, w) :: r.locals[w] == []
  {
    InitialInvariant(n, m);
    InvariantReached(Initial(n, m), actions, r);
    if r.injector == [] && SomethingQueued(r) {
      var w :| 0 <= w < |r.locals| && r.locals[w] != [];
      assert !Blocked(r, w);
    }
    if r.injector != [] && ProducersIdle(r) {
      assert !AllSleepy(r);
      var w: nat :| w < |r.workers| && !Sleepy(r, w);
      assert !Blocked(r, w);
    }
  }

  // Queued work can always be taken.

  /** The step takes a task out of a queue. */
  predicate Takes(a: Action) {
    a.PopLocal? || a.StealInjector? || a.StealVictim?
  }

  /** The worker's next step when nobody else moves. */
  function Solo(s: Pool, w: nat): Action
    requires s.Shaped() && w < |s.workers|
  {
    match s.workers[w]
    case FindLocal(_) => if s.locals[w] == [] then LocalEmpty(w) else PopLocal(w)
    case FindInjector(_) => if s.injector == [] then InjectorEmpty(w) else StealInjector(w, 1)
    case FindVictim(i, _) => if s.locals[Victim(w, i, |s.workers|)] == [] then VictimEmpty(w) else StealVictim(w, 1)
    case Announce => SetParked(w)
    case Parking => ReturnFromPark(w)
    case Retract(_) => ClearParked(w)
    case Running(_) => FinishTask(w)
  }

  /** How many steps a worker at `pc`, one of `n`, is from taking a task. */
  function StepsAway(pc: WorkerPc, n: nat): nat {
    match pc
    case FindInjector(_) => 1
    case FindLocal(_) => 2
    case FindVictim(i, again) => (if again then 4 else 3) + if i < n then n - i else 0
    case Announce => 3
    case Parking => 4
    case Retract(found) => if found.Some? then 4 else 3
    case Running(_) => 3
  }

  /** There is work the worker can still get at: its own, or the injector's if it is not asleep. */
  predicate CanReachWork(s: Pool, w: nat)
    requires s.Shaped() && w < |s.workers|
  {
    s.locals[w] != [] || (s.injector != [] && !Sleepy(s, w))
  }

  lemma SoloStep(s: Pool, w: nat)
    requires Invariant(s) && w < |s.workers| && CanReachWork(s, w)
    ensures var a := Solo(s, w);
            && Enabled(s, a) && ByWorker(a) && a.w == w
            && (!Takes(a)
              ==> CanReachWork(Apply(s, a), w)
                  && StepsAway(Apply(s, a).workers[w], |s.workers|) < StepsAway(s.workers[w], |s.workers|))
  {
  }

  /** Such a worker takes a task within `StepsAway` steps of its own. */
  lemma {:induction false} SoloTakes(s: Pool, w: nat) returns (own: seq<Action>, r: Pool)
    requires Invariant(s) && w < |s.workers| && CanReachWork(s, w)
    ensures own != [] && |own| <= StepsAway(s.workers[w], |s.workers|)
    ensures forall i | 0 <= i < |own| :: ByWorker(own[i]) && own[i].w == w
    ensures Reaches(s, own, r) && Takes(own[|own| - 1])
    decreases StepsAway(s.workers[w], |s.workers|)
  {
    var a := Solo(s, w);
    SoloStep(s, w);
    InvariantStep(s, a);
    var next := Apply(s, a);
    if Takes(a) {
      own, r := [a], next;
      assert Reaches(next, own[1..], r);
    } else {
      var rest;
      rest, r := SoloTakes(next, w);
      own := [a] + rest;
      assert own[1..] == rest;
    }
  }

  /** Progress: in every reachable state with work queued and no producer scanning, one of the workers takes a task
      within a bounded number of its own steps, with no step by anyone else. */
  lemma WorkIsTaken(n: nat, m: nat, actions: seq<Action>, s: Pool) returns (w: nat, own: seq<Action>, r: Pool)
    requires n >= 1 && Reaches(Initial(n, m), actions, s)
    requires SomethingQueued(s) && ProducersIdle(s)
    ensures own != [] && |own| <= n + 4
    ensures forall i | 0 <= i < |own| :: ByWorker(own[i]) && own[i].w == w
    ensures Reaches(s, own, r) && Takes(own[|own| - 1])
  {
    InitialInvariant(n, m);
    InvariantReached(Initial(n, m), actions, s);
    WorkersFixed(Initial(n, m), actions, s);
    if s.injector != [] {
      assert !AllSleepy(s);
      w :| w < |s.workers| && !Sleepy(s, w);
    } else {
      w :| w < |s.locals| && s.locals[w] != [];
    }
    own, r := SoloTakes(s, w);
  }

  lemma {:induction false} WorkersFixed(s: Pool, actions: seq<Action>, r: Pool)
    requires Reaches(s, actions, r)
    ensures |r.workers| == |s.workers|
    decreases |actions|
  {
    if actions != [] {
      WorkersFixed(Apply(s, actions[0]), actions[1..], r);
    }
  }

  // What a search visits.

  /** A search visits every other worker, and each exactly once. */
  lemma VictimsAreOthers(w: nat, v: nat, n: nat) returns (i: nat)
    requires w < n && v < n && v != w
    ensures 1 <= i < n && Victim(w, i, n) == v
    ensures forall j | 1 <= j < n && Victim(w, j, n) == v :: j == i
  {
    i := if w < v then v - w else v + n - w;
    forall j | 1 <= j < n ensures Victim(w, j, n) == if w + j < n then w + j else w + j - n {
      VictimAt(w, j, n);
    }
  }

  lemma VictimAt(w: nat, i: nat, n: nat)
    requires w < n && 1 <= i < n
    ensures Victim(w, i, n) == if w + i < n then w + i else w + i - n
    ensures Victim(w, i, n) != w
  {
    if w + i < n {
      DivModUnique(w + i, n, 0, w + i);
    } else {
      DivModUnique(w + i, n, 1, w + i - n);
    }
  }

  /** The rest of the worker's search will come to a queue that holds work. */
  ghost predicate WorkAhead(s: Pool, w: nat)
    requires s.Shaped() && w < |s.workers|
  {
    match s.workers[w]
    case FindLocal(_) => SomethingQueued(s)
    case FindInjector(_) => SomethingQueued(s)
    case FindVictim(i, _) => exists j :: i <= j < |s.workers| && s.locals[Victim(w, j, |s.workers|)] != []
    case _ => false
  }

  /** How many queues the worker's search still has to look at, at most. */
  function QueuesAhead(pc: WorkerPc, n: nat): nat {
    match pc
    case FindLocal(_) => n + 1
    case FindInjector(_) => n
    case FindVictim(i, _) => if i < n then n - i else 0
    case _ => 0
  }

  /** The step looks at a queue and finds it empty. */
  predicate FindsNothing(a: Action) {
    a.LocalEmpty? || a.InjectorEmpty? || a.VictimEmpty?
  }

  lemma SearchStep(s: Pool, w: nat)
    requires Invariant(s) && w < |s.workers| && WorkAhead(s, w)
    ensures var a := Solo(s, w);
            && Enabled(s, a) && ByWorker(a) && a.w == w && (Takes(a) || FindsNothing(a))
            && QueuesAhead(s.workers[w], |s.workers|) > 0
            && (FindsNothing(a)
              ==> WorkAhead(Apply(s, a), w)
                  && QueuesAhead(Apply(s, a).workers[w], |s.workers|) < QueuesAhead(s.workers[w], |s.workers|))
  {
    var pc, n := s.workers[w], |s.workers|;
    if pc.FindInjector? && s.injector == [] {
      var v :| 0 <= v < |s.locals| && s.locals[v] != [];
      var j := VictimsAreOthers(w, v, n);
    } else if pc.FindVictim? {
      assert 1 <= pc.i < n;
      var j :| pc.i <= j < n && s.locals[Victim(w, j, n)] != [];
      if s.locals[Victim(w, pc.i, n)] == [] {
        assert j != pc.i;
      }
    }
  }

  lemma {:induction false} SearchTakes(s: Pool, w: nat) returns (own: seq<Action>, r: Pool)
    requires Invariant(s) && w < |s.workers| && WorkAhead(s, w)
    ensures own != [] && |own| <= QueuesAhead(s.workers[w], |s.workers|)
    ensures forall i | 0 <= i < |own| :: ByWorker(own[i]) && own[i].w == w
    ensures forall i | 0 <= i < |own| - 1 :: FindsNothing(own[i])
    ensures Reaches(s, own, r) && Takes(own[|own| - 1])
    decreases QueuesAhead(s.workers[w], |s.workers|)
  {
    var a := Solo(s, w);
    SearchStep(s, w);
    InvariantStep(s, a);
    var next := Apply(s, a);
    if Takes(a) {
      own, r := [a], next;
      assert Reaches(next, own[1..], r);
    } else {
      var rest;
      rest, r := SearchTakes(next, w);
      own := [a] + rest;
      assert own[1..] == rest;
    }
  }

  /** A search misses no queue: a worker at its start takes a task by looking at no more than the `n + 1` queues, and
      before it would announce itself or park, whenever any queue, its own or another's, holds work. */
  lemma SearchFindsWork(s: Pool, w: nat) returns (own: seq<Action>, r: Pool)
    requires Invariant(s) && w < |s.workers| && s.workers[w].FindLocal? && SomethingQueued(s)
    ensures own != [] && |own| <= |s.workers| + 1
    ensures forall i | 0 <= i < |own| :: ByWorker(own[i]) && own[i].w == w
    ensures forall i | 0 <= i < |own| - 1 :: FindsNothing(own[i])
    ensures Reaches(s, own, r) && Takes(own[|own| - 1])
  {
    own, r := SearchTakes(s, w);
  }

  /** At some point of the run the queue of worker `v` was empty. */
  ghost predicate SeenEmpty(s: Pool, actions: seq<Action>, r: Pool, v: nat)
    requires Reaches(s, actions, r) && v < |s.locals|
    decreases |actions|
  {
    s.locals[v] == [] ||
    (actions != [] && v < |Apply(s, actions[0]).locals| && SeenEmpty(Apply(s, actions[0]), actions[1..], r, v))
  }

  /** The worker's search has not yet looked at position `j`. */
  predicate BeforePosition(pc: WorkerPc, j: nat) {
    pc.FindLocal? || pc.FindInjector? || (pc.FindVictim? && pc.i <= j)
  }

  /** A search moves past a position only by taking a task or seeing the queue there empty. */
  lemma SearchMoves(s: Pool, a: Action, w: nat, j: nat)
    requires Invariant(s) && Enabled(s, a) && w < |s.workers| && 1 <= j < |s.workers|
    requires BeforePosition(s.workers[w], j) && (Takes(a) ==> a.w != w)
    ensures Invariant(Apply(s, a)) && |Apply(s, a).workers| == |s.workers|
    ensures BeforePosition(Apply(s, a).workers[w], j) || s.locals[Victim(w, j, |s.workers|)] == []
  {
    InvariantStep(s, a);
  }

  lemma {:induction false} RestSeesEmpty(s: Pool, actions: seq<Action>, r: Pool, w: nat, j: nat, v: nat)
    requires Invariant(s) && Reaches(s, actions, r) && w < |s.workers| && 1 <= j < |s.workers|
    requires v == Victim(w, j, |s.workers|) && BeforePosition(s.workers[w], j)
    requires w < |r.workers| && (r.workers[w].Announce? || r.workers[w].Parking?)
    requires forall k | 0 <= k < |actions| :: Takes(actions[k]) ==> actions[k].w != w
    ensures SeenEmpty(s, actions, r, v)
    decreases |actions|
  {
    assert actions != [];
    var t := Apply(s, actions[0]);
    SearchMoves(s, actions[0], w, j);
    if s.locals[v] != [] {
      RestSeesEmpty(t, actions[1..], r, w, j, v);
    }
  }

  lemma {:induction false} SeesOwnEmpty(s: Pool, actions: seq<Action>, r: Pool, w: nat)
    requires Invariant(s) && Reaches(s, actions, r) && w < |s.workers|
    requires w < |r.workers| && (r.workers[w].Announce? || r.workers[w].Parking?)
    ensures SeenEmpty(s, actions, r, w)
    decreases |actions|
  {
    if actions != [] {
      InvariantStep(s, actions[0]);
      SeesOwnEmpty(Apply(s, actions[0]), actions[1..], r, w);
    }
  }

  /** Whatever the others do meanwhile, a search that takes nothing has seen every queue, its own and each other
      worker's, empty at some time before the worker announces itself or parks. */
  lemma SearchSeesEveryQueue(s: Pool, actions: seq<Action>, r: Pool, w: nat, v: nat)
    requires Invariant(s) && Reaches(s, actions, r) && w < |s.workers| && v < |s.workers|
    requires s.workers[w].FindLocal? && w < |r.workers| && (r.workers[w].Announce? || r.workers[w].Parking?)
    requires forall k | 0 <= k < |actions| :: Takes(actions[k]) ==> actions[k].w != w
    ensures SeenEmpty(s, actions, r, v)
  {
    if v == w {
      SeesOwnEmpty(s, actions, r, w);
    } else {
      var j := VictimsAreOthers(w, v, |s.workers|);
      RestSeesEmpty(s, actions, r, w, j, v);
    }
  }

  // What a producer's scan does.

  /** The producer's next step when nobody else moves. */
  function ScanStep(s: Pool, p: nat): Action
    requires s.Shaped() && p < |s.producers| && !s.producers[p].Idle?
  {
    match s.producers[p]
    case Scanning(_) => Load(p)
    case Trying(_) => CompareExchange(p)
    case Claimed(_) => Unpark(p)
  }

  /** The workers before `k` have their flags down. */
  predicate FlagsDown(s: Pool, k: nat) {
    forall v | 0 <= v < k && v < |s.parked| :: !s.parked[v]
  }

  /** The first raised flag is claimed and its worker handed a token. */
  lemma ScanClaims(s: Pool, p: nat, k: nat) returns (own: seq<Action>, r: Pool)
    requires Invariant(s) && p < |s.producers| && k < |s.workers| && s.producers[p] == Scanning(k) && s.parked[k]
    ensures own == [Load(p), CompareExchange(p), Unpark(p)] && Reaches(s, own, r)
    ensures r == s.(producers := s.producers[p := Idle], parked := s.parked[k := false], tokens := s.tokens[k := true])
  {
    own := [Load(p), CompareExchange(p), Unpark(p)];
    var s1 := s.(producers := s.producers[p := Trying(k)]);
    var s2 := s1.(parked := s.parked[k := false], producers := s1.producers[p := Claimed(k)]);
    r := s2.(tokens := s.tokens[k := true], producers := s2.producers[p := Idle]);
    ThreeSteps(s, own, s1, s2, r);
    assert r.producers == s.producers[p := Idle];
  }

  lemma ScanPasses(s: Pool, p: nat, k: nat)
    requires Invariant(s) && p < |s.producers| && k <= |s.workers| && s.producers[p] == Scanning(k)
    requires k == |s.workers| || !s.parked[k]
    ensures Enabled(s, Load(p)) && Invariant(Apply(s, Load(p)))
    ensures Apply(s, Load(p))
         == s.(producers := s.producers[p := if k == |s.workers| then Idle else Scanning(k + 1)])
  {
    InvariantStep(s, Load(p));
  }

  /** What a scan without interference makes of the state: it wakes worker `v`, the first whose flag is up, or nobody.
      */
  predicate WakesFirst(s: Pool, r: Pool)
    requires s.Shaped()
  {
    && (FlagsDown(s, |s.parked|) ==> r == s.(producers := r.producers))
    && (forall v: nat | v < |s.parked| && s.parked[v] && FlagsDown(s, v) ::
          r == s.(producers := r.producers, parked := s.parked[v := false], tokens := s.tokens[v := true]))
  }

  lemma {:induction false} ScanFrom(s: Pool, p: nat, k: nat) returns (own: seq<Action>, r: Pool)
    requires Invariant(s) && p < |s.producers| && k <= |s.workers| && FlagsDown(s, k)
    requires s.producers[p] == Scanning(k)
    ensures |own| <= |s.workers| - k + 3 && forall i | 0 <= i < |own| :: !ByWorker(own[i]) && own[i].p == p
    ensures Reaches(s, own, r) && r.producers == s.producers[p := Idle] && WakesFirst(s, r)
    decreases |s.workers| - k
  {
    if k < |s.workers| && s.parked[k] {
      own, r := ScanClaims(s, p, k);
    } else {
      ScanPasses(s, p, k);
      var s1 := Apply(s, Load(p));
      if k == |s.workers| {
        own, r := [Load(p)], s1;
        assert Reaches(s1, own[1..], r);
      } else {
        var rest;
        rest, r := ScanFrom(s1, p, k + 1);
        own := [Load(p)] + rest;
        assert own[1..] == rest;
        assert s1.producers[p := Idle] == s.producers[p := Idle];
      }
    }
  }

  lemma ThreeSteps(s: Pool, own: seq<Action>, s1: Pool, s2: Pool, r: Pool)
    requires |own| == 3 && s.Shaped() && Enabled(s, own[0]) && s1 == Apply(s, own[0])
    requires Enabled(s1, own[1]) && s2 == Apply(s1, own[1]) && Enabled(s2, own[2]) && r == Apply(s2, own[2])
    ensures Reaches(s, own, r)
  {
    assert own[1..][1..][1..] == [];
    assert Reaches(s2, own[1..][1..], r);
    assert Reaches(s1, own[1..], r);
  }

  /** A push wakes the first announced worker: with no interference the producer's scan lowers the first raised flag and
      hands that worker a token, and touches nothing else; if no flag is up it changes nothing. */
  lemma PushWakesFirst(s: Pool, p: nat, t: Task) returns (own: seq<Action>, r: Pool)
    requires Invariant(s) && p < |s.producers| && s.producers[p].Idle?
    ensures |own| <= |s.workers| + 4 && forall i | 0 <= i < |own| :: !ByWorker(own[i]) && own[i].p == p
    ensures Reaches(s, own, r) && own != [] && own[0] == Push(p, t)
    ensures FlagsDown(s, |s.parked|) ==> r == s.(injector := s.injector + [t])
    ensures forall v: nat | v < |s.parked| && s.parked[v] && FlagsDown(s, v) ::
        r == s.(injector := s.injector + [t], parked := s.parked[v := false], tokens := s.tokens[v := true])
  {
    var s1 := Apply(s, Push(p, t));
    InvariantStep(s, Push(p, t));
    var rest;
    rest, r := ScanFrom(s1, p, 0);
    own := [Push(p, t)] + rest;
    assert own[1..] == rest;
    assert s1.producers[p := Idle] == s.producers;
  }

  /** At some point of the run the worker's flag was down. */
  ghost predicate SeenDown(s: Pool, actions: seq<Action>, r: Pool, w: nat)
    requires Reaches(s, actions, r) && w < |s.parked|
    decreases |actions|
  {
    !s.parked[w] ||
    (actions != [] && w < |Apply(s, actions[0]).parked| && SeenDown(Apply(s, actions[0]), actions[1..], r, w))
  }

  lemma {:induction false} ClaimIsKept(s: Pool, actions: seq<Action>, r: Pool, p: nat)
    requires Invariant(s) && Reaches(s, actions, r) && p < |s.producers| && s.producers[p].Claimed?
    requires Unpark(p) !in actions
    ensures p < |r.producers| && r.producers[p] == s.producers[p]
    decreases |actions|
  {
    if actions != [] {
      assert actions[0] != Unpark(p);
      InvariantStep(s, actions[0]);
      ClaimIsKept(Apply(s, actions[0]), actions[1..], r, p);
    }
  }

  lemma {:induction false} RestSeesDown(s: Pool, actions: seq<Action>, r: Pool, p: nat, w: nat)
    requires Invariant(s) && Reaches(s, actions, r) && p < |s.producers| && w < |s.workers|
    requires (s.producers[p].Scanning? || s.producers[p].Trying?) && s.producers[p].i <= w
    requires p < |r.producers| && r.producers[p].Idle? && Unpark(p) !in actions
    ensures SeenDown(s, actions, r, w)
    decreases |actions|
  {
    assert actions != [];
    var a := actions[0];
    var t := Apply(s, a);
    ScanMoves(s, a, p, w);
    if t.producers[p].Claimed? {
      ClaimIsKept(t, actions[1..], r, p);
      assert false;
    } else if s.parked[w] {
      RestSeesDown(t, actions[1..], r, p, w);
    }
  }

  /** A scan moves past a worker only if the worker's flag is down. */
  lemma ScanMoves(s: Pool, a: Action, p: nat, w: nat)
    requires Invariant(s) && Enabled(s, a) && p < |s.producers| && w < |s.workers|
    requires (s.producers[p].Scanning? || s.producers[p].Trying?) && s.producers[p].i <= w
    ensures var t := Apply(s, a);
      && Invariant(t)
      && (t.producers[p].Claimed?
          || ((t.producers[p].Scanning? || t.producers[p].Trying?) && (t.producers[p].i <= w || !s.parked[w])))
  {
    InvariantStep(s, a);
  }

  /** Whatever the others do meanwhile, a push whose scan ends without waking anyone has seen the flag of every worker
      down: losing the race for one worker, the producer goes on to the next. */
  lemma ScanSeesEveryFlag(s: Pool, actions: seq<Action>, r: Pool, p: nat, t: Task, w: nat)
    requires Invariant(s) && Reaches(s, actions, r) && p < |s.producers| && w < |s.workers|
    requires actions != [] && actions[0] == Push(p, t) && Unpark(p) !in actions
    requires p < |r.producers| && r.producers[p].Idle?
    ensures SeenDown(s, actions, r, w)
  {
    InvariantStep(s, actions[0]);
    RestSeesDown(Apply(s, actions[0]), actions[1..], r, p, w);
  }

  // What flags and tokens stand for.

  /** A worker's flag is up only while the worker is announced or about to withdraw. */
  predicate FlagsHonest(s: Pool)
    requires s.Shaped()
  {
    forall w: nat | w < |s.workers| && s.parked[w] :: Announced(s.workers[w]) || s.workers[w].Retract?
  }

  lemma {:induction false} FlagsStayHonest(s: Pool, actions: seq<Action>, r: Pool)
    requires Invariant(s) && FlagsHonest(s) && Reaches(s, actions, r)
    ensures r.Shaped() && FlagsHonest(r)
    decreases |actions|
  {
    if actions != [] {
      HonestStep(s, actions[0]);
      InvariantStep(s, actions[0]);
      FlagsStayHonest(Apply(s, actions[0]), actions[1..], r);
    }
  }

  lemma HonestStep(s: Pool, a: Action)
    requires Invariant(s) && FlagsHonest(s) && Enabled(s, a)
    ensures FlagsHonest(Apply(s, a))
  {
    var r := Apply(s, a);
    forall w: nat | w < |r.workers| && r.parked[w] ensures Announced(r.workers[w]) || r.workers[w].Retract? {
      if ByWorker(a) && a.w == w {
      } else {
        assert r.workers[w] == s.workers[w] && s.parked[w];
      }
    }
  }

  function One(b: bool): nat {
    if b then 1 else 0
  }

  /** Whether the step hands `w` a token. */
  predicate Unparks(s: Pool, a: Action, w: nat)
    requires s.Shaped() && Enabled(s, a)
  {
    a.Unpark? && s.producers[a.p] == Claimed(w)
  }

  /** How often `w` was handed a token along a run. */
  ghost function UnparksIn(s: Pool, actions: seq<Action>, r: Pool, w: nat): nat
    requires Reaches(s, actions, r)
    decreases |actions|
  {
    if actions == [] then 0
    else One(Unparks(s, actions[0], w)) + UnparksIn(Apply(s, actions[0]), actions[1..], r, w)
  }

  /** How often `w` returned from `park`. */
  function ReturnsIn(actions: seq<Action>, w: nat): nat {
    if actions == [] then 0 else One(actions[0] == ReturnFromPark(w)) + ReturnsIn(actions[1..], w)
  }

  /** How often producer `p` pushed. */
  function PushesIn(actions: seq<Action>, p: nat): nat {
    if actions == [] then 0 else One(actions[0].Push? && actions[0].p == p) + PushesIn(actions[1..], p)
  }

  function WakesIn(actions: seq<Action>, p: nat): nat {
    if actions == [] then 0 else One(actions[0] == Unpark(p)) + WakesIn(actions[1..], p)
  }

  /** Every return from `park` uses up a token a producer handed out. */
  lemma {:induction false} ReturnsAreWoken(s: Pool, actions: seq<Action>, r: Pool, w: nat)
    requires Invariant(s) && Reaches(s, actions, r) && w < |s.workers|
    ensures |r.tokens| == |s.workers|
    ensures ReturnsIn(actions, w) + One(r.tokens[w]) <= UnparksIn(s, actions, r, w) + One(s.tokens[w])
    decreases |actions|
  {
    if actions != [] {
      InvariantStep(s, actions[0]);
      ReturnsAreWoken(Apply(s, actions[0]), actions[1..], r, w);
    }
  }

  /** In every reachable state a worker's flag is up only while the worker is announced or about to withdraw, and its
      returns from `park` so far are covered by the tokens it was handed. */
  lemma FlagsAndTokens(n: nat, m: nat, actions: seq<Action>, r: Pool, w: nat)
    requires n >= 1 && Reaches(Initial(n, m), actions, r) && w < n
    ensures r.Shaped() && |r.workers| == n
    ensures r.parked[w] ==> Announced(r.workers[w]) || r.workers[w].Retract?
    ensures ReturnsIn(actions, w) + One(r.tokens[w]) <= UnparksIn(Initial(n, m), actions, r, w)
  {
    InitialInvariant(n, m);
    FlagsStayHonest(Initial(n, m), actions, r);
    ReturnsAreWoken(Initial(n, m), actions, r, w);
    WorkersFixed(Initial(n, m), actions, r);
  }

  /** One push, at most one wake. */
  lemma {:induction false} OneWakePerPush(s: Pool, actions: seq<Action>, r: Pool, p: nat)
    requires Invariant(s) && Reaches(s, actions, r) && p < |s.producers|
    ensures |r.producers| == |s.producers|
    ensures WakesIn(actions, p) + One(!r.producers[p].Idle?) <= PushesIn(actions, p) + One(!s.producers[p].Idle?)
    decreases |actions|
  {
    if actions != [] {
      InvariantStep(s, actions[0]);
      OneWakePerPush(Apply(s, actions[0]), actions[1..], r, p);
    }
  }

  /** How many steps of its own a producer is from the end of its scan, at most. */
  function ScanLeft(pc: ProducerPc, n: nat): nat {
    match pc
    case Idle => 0
    case Scanning(i) => 2 + if i < n then 2 * (n - i) else 0
    case Trying(i) => 1 + if i < n then 2 * (n - i) else 0
    case Claimed(_) => 1
  }

  /** How many steps producer `p` took besides its pushes. */
  function ScanStepsIn(actions: seq<Action>, p: nat): nat {
    if actions == [] then 0
    else One(!ByWorker(actions[0]) && !actions[0].Push? && actions[0].p == p) + ScanStepsIn(actions[1..], p)
  }

  lemma ScanStepBounded(s: Pool, a: Action, p: nat)
    requires Invariant(s) && Enabled(s, a) && p < |s.producers|
    ensures One(!ByWorker(a) && !a.Push? && a.p == p) + ScanLeft(Apply(s, a).producers[p], |s.workers|)
         <= ScanLeft(s.producers[p], |s.workers|) + if a.Push? && a.p == p then 2 * |s.workers| + 2 else 0
  {
  }

  /** A scan tries each worker once: over every run, whatever the others do, a producer takes at most 2n + 2 steps for
      each push. */
  lemma {:induction false} ScanIsBounded(s: Pool, actions: seq<Action>, r: Pool, p: nat, n: nat)
    requires Invariant(s) && Reaches(s, actions, r) && p < |s.producers| && n == |s.workers|
    ensures p < |r.producers|
    ensures ScanStepsIn(actions, p) + ScanLeft(r.producers[p], n)
         <= ScanLeft(s.producers[p], n) + (2 * n + 2) * PushesIn(actions, p)
    decreases |actions|
  {
    if actions != [] {
      ScanStepBounded(s, actions[0], p);
      InvariantStep(s, actions[0]);
      ScanIsBounded(Apply(s, actions[0]), actions[1..], r, p, n);
      PushCosts(2 * n + 2, One(actions[0].Push? && actions[0].p == p), PushesIn(actions[1..], p));
    }
  }

  lemma PushCosts(c: nat, one: nat, more: nat)
    requires one <= 1
    ensures c * (one + more) == (if one == 1 then c else 0) + c * more
  {
  }

  // The order of tasks.

  /** The tasks a step starts, in order. */
  function StartedBy(s: Pool, a: Action): seq<Task>
    requires s.Shaped() && Enabled(s, a)
  {
    match a
    case PopLocal(w) => s.locals[w][..1]
    case StealInjector(w, k) => s.injector[..1]
    case StealVictim(w, k) => s.locals[Victim(w, s.workers[w].i, |s.workers|)][..1]
    case _ => []
  }

  ghost function StartedIn(s: Pool, actions: seq<Action>, r: Pool): seq<Task>
    requires Reaches(s, actions, r)
    decreases |actions|
  {
    if actions == [] then []
    else StartedBy(s, actions[0]) + StartedIn(Apply(s, actions[0]), actions[1..], r)
  }

  /** The tasks pushed along a run, in order. */
  function PushOrder(actions: seq<Action>): seq<Task> {
    if actions == [] then []
    else PushedBy(actions[0]) + PushOrder(actions[1..])
  }

  /** What the only worker has yet to start, in order. */
  function Waiting(s: Pool): seq<Task>
    requires s.Shaped() && |s.workers| == 1
  {
    s.locals[0] + s.injector
  }

  function PushedBy(a: Action): seq<Task> {
    if a.Push? then [a.task] else []
  }

  lemma FifoSteal(s: Pool, a: Action)
    requires Invariant(s) && |s.workers| == 1 && Enabled(s, a) && a.StealInjector?
    ensures StartedBy(s, a) + Waiting(Apply(s, a)) == Waiting(s)
  {
    var q, k := s.injector, a.k;
    assert s.locals[0] == [];
    assert q == q[..1] + (q[1..k] + q[k..]);
  }

  lemma FifoPop(s: Pool, a: Action)
    requires Invariant(s) && |s.workers| == 1 && Enabled(s, a) && a.PopLocal?
    ensures StartedBy(s, a) + Waiting(Apply(s, a)) == Waiting(s)
  {
    var q := s.locals[0];
    assert q == q[..1] + q[1..];
  }

  lemma FifoPush(s: Pool, a: Action)
    requires Invariant(s) && |s.workers| == 1 && Enabled(s, a) && a.Push?
    ensures Waiting(Apply(s, a)) == Waiting(s) + [a.task]
  {
    assert s.locals[0] + (s.injector + [a.task]) == s.locals[0] + s.injector + [a.task];
  }

  lemma FifoStep(s: Pool, a: Action, next: Pool)
    requires Invariant(s) && |s.workers| == 1 && Enabled(s, a) && next == Apply(s, a)
    ensures Invariant(next) && |next.workers| == 1
    ensures StartedBy(s, a) + Waiting(next) == Waiting(s) + PushedBy(a)
  {
    InvariantStep(s, a);
    if a.StealInjector? {
      FifoSteal(s, a);
    } else if a.PopLocal? {
      FifoPop(s, a);
    } else if a.Push? {
      FifoPush(s, a);
    }
  }

  lemma OrderNext(s: Pool, actions: seq<Action>, r: Pool, a: Action, next: Pool, rest: seq<Action>)
    requires actions != [] && Reaches(s, actions, r) && a == actions[0] && rest == actions[1..] && next == Apply(s, a)
    ensures Reaches(next, rest, r) && StartedIn(s, actions, r) == StartedBy(s, a) + StartedIn(next, rest, r)
    ensures PushOrder(actions) == PushedBy(a) + PushOrder(rest)
  {
  }

  /** First in, first out: a pool of one worker starts tasks in the order they were pushed. */
  lemma {:induction false} OneWorkerIsFifo(s: Pool, actions: seq<Action>, r: Pool)
    requires Invariant(s) && |s.workers| == 1 && Reaches(s, actions, r)
    ensures r.Shaped() && |r.workers| == 1
    ensures StartedIn(s, actions, r) + Waiting(r) == Waiting(s) + PushOrder(actions)
    decreases |actions|
  {
    if actions != [] {
      var a, rest := actions[0], actions[1..];
      var next := Apply(s, a);
      FifoStep(s, a, next);
      OrderNext(s, actions, r, a, next, rest);
      OneWorkerIsFifo(next, rest, r);
      FifoJoin(StartedBy(s, a), StartedIn(next, rest, r), Waiting(r), Waiting(next), Waiting(s), PushedBy(a),
               PushOrder(rest));
    }
  }

  lemma FifoJoin(a: seq<Task>, b: seq<Task>, last: seq<Task>, mid: seq<Task>, first: seq<Task>, x: seq<Task>,
                 y: seq<Task>)
    requires b + last == mid + y && a + mid == first + x
    ensures (a + b) + last == first + (x + y)
  {
    calc {
      (a + b) + last;
      a + (b + last);
      a + (mid + y);
      (a + mid) + y;
      (first + x) + y;
      first + (x + y);
    }
  }

  // Queues of any number of workers, with tasks numbered in the order they are pushed.

  predicate Ascending(q: seq<Task>, bound: nat) {
    (forall i, j | 0 <= i < j < |q| :: q[i] < q[j]) && forall i | 0 <= i < |q| :: q[i] < bound
  }

  predicate QueuesAscending(s: Pool, bound: nat) {
    Ascending(s.injector, bound) && forall w | 0 <= w < |s.locals| :: Ascending(s.locals[w], bound)
  }

  /** The queue a step takes its task from. */
  function QueueOf(s: Pool, a: Action): seq<Task>
    requires s.Shaped() && Enabled(s, a) && Takes(a)
  {
    match a
    case PopLocal(w) => s.locals[w]
    case StealInjector(_, _) => s.injector
    case StealVictim(w, _) => s.locals[Victim(w, s.workers[w].i, |s.workers|)]
  }

  /** The worker holds `t`, about to run it. */
  predicate Holds(pc: WorkerPc, t: Task) {
    pc == Running(t) || pc == Retract(Some(t))
  }

  lemma AscendingParts(q: seq<Task>, k: nat, bound: nat)
    requires Ascending(q, bound) && 1 <= k <= |q|
    ensures Ascending(q[k..], bound) && Ascending([] + q[1..k], bound)
  {
  }

  lemma AscendingPush(q: seq<Task>, t: Task, bound: nat)
    requires Ascending(q, bound) && bound <= t
    ensures Ascending(q + [t], t + 1)
  {
  }

  /** A step keeps every queue in push order. */
  lemma OrderStep(s: Pool, a: Action, bound: nat)
    requires Invariant(s) && Enabled(s, a) && QueuesAscending(s, bound) && (a.Push? ==> a.task >= bound)
    ensures QueuesAscending(Apply(s, a), if a.Push? then a.task + 1 else bound)
  {
    if a.StealInjector? {
      assert s.locals[a.w] == [];
      AscendingParts(s.injector, a.k, bound);
    } else if a.StealVictim? {
      assert s.locals[a.w] == [];
      var v := Victim(a.w, s.workers[a.w].i, |s.workers|);
      AscendingParts(s.locals[v], a.k, bound);
    } else if a.Push? {
      AscendingPush(s.injector, a.task, bound);
    } else if a.PopLocal? {
      AscendingParts(s.locals[a.w], 1, bound);
    }
  }

  /** A step that takes a task takes the oldest one of a queue. */
  lemma TakesOldest(s: Pool, a: Action, bound: nat)
    requires Invariant(s) && Enabled(s, a) && Takes(a) && QueuesAscending(s, bound)
    ensures QueueOf(s, a) != []
    ensures exists t :: Holds(Apply(s, a).workers[a.w], t) && t in QueueOf(s, a)
                        && forall x | x in QueueOf(s, a) :: t <= x
  {
    var q := QueueOf(s, a);
    var t := q[0];
    assert Holds(Apply(s, a).workers[a.w], t);
    forall x | x in q ensures t <= x {
      var i :| 0 <= i < |q| && q[i] == x;
    }
  }

  /** The tasks are pushed with increasing numbers from `bound` on. */
  predicate PushedInOrder(actions: seq<Action>, bound: nat)
    decreases |actions|
  {
    actions == [] ||
    if actions[0].Push? then actions[0].task >= bound && PushedInOrder(actions[1..], actions[0].task + 1)
    else PushedInOrder(actions[1..], bound)
  }

  lemma {:induction false} QueuesStayInOrder(s: Pool, actions: seq<Action>, r: Pool, bound: nat)
    requires Invariant(s) && Reaches(s, actions, r) && QueuesAscending(s, bound) && PushedInOrder(actions, bound)
    ensures exists b: nat :: QueuesAscending(r, b)
    decreases |actions|
  {
    if actions != [] {
      OrderStep(s, actions[0], bound);
      InvariantStep(s, actions[0]);
      QueuesStayInOrder(Apply(s, actions[0]), actions[1..], r,
                        if actions[0].Push? then actions[0].task + 1 else bound);
    }
  }

  /** Whatever the number of workers and the interleaving, the injector and every worker's queue always hold their tasks
      in the order in which they were pushed. */
  lemma QueuesInPushOrder(n: nat, m: nat, actions: seq<Action>, r: Pool, q: seq<Task>)
    requires n >= 1 && Reaches(Initial(n, m), actions, r) && PushedInOrder(actions, 0)
    requires q == r.injector || q in r.locals
    ensures forall i, j | 0 <= i < j < |q| :: q[i] < q[j]
  {
    InitialInvariant(n, m);
    QueuesStayInOrder(Initial(n, m), actions, r, 0);
  }

  // No task is lost or run twice.

  /** How often `t` occurs in a queue. */
  function Count(q: seq<Task>, t: Task): nat {
    if q == [] then 0 else Count(q[..|q| - 1], t) + if q[|q| - 1] == t then 1 else 0
  }

  function CountAll(locals: seq<seq<Task>>, t: Task): nat {
    if locals == [] then 0 else CountAll(locals[..|locals| - 1], t) + Count(locals[|locals| - 1], t)
  }

  /** Whether a worker has taken `t` and not finished it. */
  function InHand(pc: WorkerPc, t: Task): nat {
    if pc == Running(t) || pc == Retract(Some(t)) then 1 else 0
  }

  function CountInHand(workers: seq<WorkerPc>, t: Task): nat {
    if workers == [] then 0 else CountInHand(workers[..|workers| - 1], t) + InHand(workers[|workers| - 1], t)
  }

  /** How often `t` is queued or in a worker's hands. */
  function Pending(s: Pool, t: Task): nat {
    Count(s.injector, t) + CountAll(s.locals, t) + CountInHand(s.workers, t)
  }

  lemma {:induction false} CountConcat(a: seq<Task>, b: seq<Task>, t: Task)
    ensures Count(a + b, t) == Count(a, t) + Count(b, t)
  {
    if b == [] {
      assert a + b == a;
    } else {
      assert (a + b)[..|a + b| - 1] == a + b[..|b| - 1];
      CountConcat(a, b[..|b| - 1], t);
    }
  }

  lemma {:induction false} CountAllUpdate(locals: seq<seq<Task>>, w: nat, q: seq<Task>, t: Task)
    requires w < |locals|
    ensures CountAll(locals[w := q], t) + Count(locals[w], t) == CountAll(locals, t) + Count(q, t)
  {
    var n := |locals| - 1;
    if w < n {
      CountAllUpdate(locals[..n], w, q, t);
      assert locals[w := q][..n] == locals[..n][w := q];
    } else {
      assert locals[w := q][..n] == locals[..n];
    }
  }

  lemma {:induction false} CountInHandUpdate(workers: seq<WorkerPc>, w: nat, pc: WorkerPc, t: Task)
    requires w < |workers|
    ensures CountInHand(workers[w := pc], t) + InHand(workers[w], t) == CountInHand(workers, t) + InHand(pc, t)
  {
    var n := |workers| - 1;
    if w < n {
      CountInHandUpdate(workers[..n], w, pc, t);
      assert workers[w := pc][..n] == workers[..n][w := pc];
    } else {
      assert workers[w := pc][..n] == workers[..n];
    }
  }

  lemma BatchSplit(q: seq<Task>, k: nat, t: Task)
    requires 1 <= k <= |q|
    ensures Count(q, t) == (if q[0] == t then 1 else 0) + Count(q[1..k], t) + Count(q[k..], t)
  {
    assert q == ([q[0]] + q[1..k]) + q[k..];
    CountConcat([q[0]] + q[1..k], q[k..], t);
    CountConcat([q[0]], q[1..k], t);
    assert [q[0]][..0] == [];
  }

  function Pushed(a: Action, t: Task): nat {
    if a.Push? && a.task == t then 1 else 0
  }

  function FinishedBy(s: Pool, a: Action, t: Task): nat
    requires s.Shaped() && Enabled(s, a)
  {
    if a.FinishTask? then InHand(s.workers[a.w], t) else 0
  }

  lemma PoppedTasks(s: Pool, a: Action, t: Task)
    requires Invariant(s) && Enabled(s, a) && a.PopLocal?
    ensures Pending(Apply(s, a), t) == Pending(s, t)
  {
    var q := s.locals[a.w];
    BatchSplit(q, 1, t);
    assert q[1..1] == [];
    CountAllUpdate(s.locals, a.w, q[1..], t);
    CountInHandUpdate(s.workers, a.w, Found(q[0], s.workers[a.w].again), t);
  }

  lemma StolenTasks(s: Pool, a: Action, t: Task)
    requires Invariant(s) && Enabled(s, a) && a.StealInjector?
    ensures Pending(Apply(s, a), t) == Pending(s, t)
  {
    BatchSplit(s.injector, a.k, t);
    CountConcat(s.locals[a.w], s.injector[1..a.k], t);
    CountAllUpdate(s.locals, a.w, s.locals[a.w] + s.injector[1..a.k], t);
    CountInHandUpdate(s.workers, a.w, Found(s.injector[0], s.workers[a.w].again), t);
  }

  lemma RobbedTasks(s: Pool, a: Action, t: Task)
    requires Invariant(s) && Enabled(s, a) && a.StealVictim?
    ensures Pending(Apply(s, a), t) == Pending(s, t)
  {
    var v := Victim(a.w, s.workers[a.w].i, |s.workers|);
    VictimAt(a.w, s.workers[a.w].i, |s.workers|);
    var q := s.locals[v];
    BatchSplit(q, a.k, t);
    CountConcat(s.locals[a.w], q[1..a.k], t);
    CountAllUpdate(s.locals, v, q[a.k..], t);
    CountAllUpdate(s.locals[v := q[a.k..]], a.w, s.locals[a.w] + q[1..a.k], t);
    CountInHandUpdate(s.workers, a.w, Found(q[0], s.workers[a.w].again), t);
  }

  lemma OtherStep(s: Pool, a: Action, t: Task)
    requires Invariant(s) && Enabled(s, a) && !a.PopLocal? && !a.StealInjector? && !a.StealVictim?
    ensures Pending(Apply(s, a), t) + FinishedBy(s, a, t) == Pending(s, t) + Pushed(a, t)
  {
    if ByWorker(a) {
      CountInHandUpdate(s.workers, a.w, Apply(s, a).workers[a.w], t);
    }
  }

  /** Each step moves tasks without losing or copying them; only a push adds one and only a finish removes one. */
  lemma TasksConserved(s: Pool, a: Action, t: Task)
    requires Invariant(s) && Enabled(s, a)
    ensures Pending(Apply(s, a), t) + FinishedBy(s, a, t) == Pending(s, t) + Pushed(a, t)
  {
    if a.PopLocal? {
      PoppedTasks(s, a, t);
    } else if a.StealInjector? {
      StolenTasks(s, a, t);
    } else if a.StealVictim? {
      RobbedTasks(s, a, t);
    } else {
      OtherStep(s, a, t);
    }
  }

  function PushedIn(actions: seq<Action>, t: Task): nat {
    if actions == [] then 0 else Pushed(actions[0], t) + PushedIn(actions[1..], t)
  }

  /** How often `t` was finished along a run. */
  ghost function FinishedIn(s: Pool, actions: seq<Action>, r: Pool, t: Task): nat
    requires Reaches(s, actions, r)
    decreases |actions|
  {
    if actions == [] then 0 else FinishedBy(s, actions[0], t) + FinishedIn(Apply(s, actions[0]), actions[1..], r, t)
  }

  /** Over a whole run each task is pending or finished exactly as often as it was pushed. */
  lemma {:induction false} RunConservesTasks(s: Pool, actions: seq<Action>, r: Pool, t: Task)
    requires Invariant(s) && Reaches(s, actions, r)
    ensures Pending(r, t) + FinishedIn(s, actions, r, t) == Pending(s, t) + PushedIn(actions, t)
    decreases |actions|
  {
    if actions != [] {
      InvariantStep(s, actions[0]);
      TasksConserved(s, actions[0], t);
      RunConservesTasks(Apply(s, actions[0]), actions[1..], r, t);
    }
  }
}
