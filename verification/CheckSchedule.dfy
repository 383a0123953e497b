/** Executions that overlap in time share one check accumulator: each reserves a window when it starts and fills it
    when it finishes, in any order. */
module CheckSchedule {
  import opened Bits
  import opened Circuits
  import opened ConsistencyCheck
  import opened QuickSilver
  import opened QuickSilverStreams

  /** What one execution records: a triple and an adjustment bit for each AND gate. */
  datatype Part = Part(triples: seq<Triple>, bits: seq<bool>)

  datatype Event = Start | Finish(i: nat)

  predicate PartsOk(parts: seq<Part>) {
    forall i | 0 <= i < |parts| :: |parts[i].bits| == |parts[i].triples|
  }

  /** The number of gates of the first `n` executions: where window `n` begins. */
  function Offset(parts: seq<Part>, n: nat): nat
    requires n <= |parts|
  {
    if n == 0 then 0 else Offset(parts, n - 1) + |parts[n - 1].triples|
  }

  lemma {:induction false} OffsetMonotone(parts: seq<Part>, m: nat, n: nat)
    requires m <= n <= |parts|
    ensures Offset(parts, m) <= Offset(parts, n)
  {
    if m < n {
      OffsetMonotone(parts, m, n - 1);
    }
  }

  function Started(events: seq<Event>): nat {
    if events == [] then 0
    else Started(events[..|events| - 1]) + if events[|events| - 1].Start? then 1 else 0
  }

  function Finished(events: seq<Event>): set<nat> {
    if events == [] then {}
    else
      var e := events[|events| - 1];
      Finished(events[..|events| - 1]) + if e.Finish? then {e.i} else {}
  }

  /** At most `m` executions start; each finishes at most once, after it started. */
  predicate Legal(events: seq<Event>, m: nat) {
    events == [] ||
    var before, e := events[..|events| - 1], events[|events| - 1];
    && Legal(before, m)
    && (e.Start? ==> Started(before) < m)
    && (e.Finish? ==> e.i < Started(before) && e.i !in Finished(before))
  }

  lemma {:induction false} LegalStarted(events: seq<Event>, m: nat)
    requires Legal(events, m)
    ensures Started(events) <= m
  {
    if events != [] {
      LegalStarted(events[..|events| - 1], m);
    }
  }

  datatype Accumulator = Accumulator(triples: seq<Triple>, adjust: seq<bool>)

  /** The accumulator after the events; `stale` is what a failed check may have left in `adjust`. */
  function Replay(parts: seq<Part>, stale: seq<bool>, events: seq<Event>): (r: Accumulator)
    requires PartsOk(parts) && Legal(events, |parts|) && Started(events) <= |parts|
    ensures |r.triples| == Offset(parts, Started(events))
    ensures Started(events) > 0 ==> |r.adjust| == |r.triples|
  {
    if events == [] then Accumulator([], stale)
    else
      var before, e := events[..|events| - 1], events[|events| - 1];
      var s := Started(before);
      assert s <= |parts|;
      var a := Replay(parts, stale, before);
      match e
      case Start =>
        var n := |parts[s].triples|;
        Accumulator(a.triples + seq(n, _ => DefaultTriple()), Resized(a.adjust, |a.triples| + n))
      case Finish(i) =>
        OffsetMonotone(parts, i + 1, s);
        Accumulator(Overwritten(a.triples, Offset(parts, i), parts[i].triples),
                    Overwritten(a.adjust, Offset(parts, i), parts[i].bits))
  }

  /** Window `i` of the accumulator holds the record of execution `i`. */
  predicate HoldsPart(a: Accumulator, parts: seq<Part>, i: nat)
    requires i < |parts| && PartsOk(parts)
  {
    && Offset(parts, i + 1) <= |a.triples| == |a.adjust|
    && a.triples[Offset(parts, i)..Offset(parts, i + 1)] == parts[i].triples
    && a.adjust[Offset(parts, i)..Offset(parts, i + 1)] == parts[i].bits
  }

  /** Writing a window leaves the others alone. */
  lemma OverwriteFrame<T>(s: seq<T>, idx: nat, part: seq<T>, lo: nat, hi: nat)
    requires idx + |part| <= |s| && lo <= hi <= |s| && (hi <= idx || idx + |part| <= lo)
    ensures Overwritten(s, idx, part)[lo..hi] == s[lo..hi]
  {
  }

  lemma ExtendFrame(a: Accumulator, parts: seq<Part>, i: nat, n: nat)
    requires i < |parts| && PartsOk(parts) && HoldsPart(a, parts, i)
    ensures HoldsPart(Accumulator(a.triples + seq(n, _ => DefaultTriple()), Resized(a.adjust, |a.triples| + n)), parts,
                      i)
  {
    OffsetMonotone(parts, i, i + 1);
  }

  lemma WriteFrame(a: Accumulator, parts: seq<Part>, i: nat, j: nat)
    requires i < |parts| && j < |parts| && i != j && PartsOk(parts) && HoldsPart(a, parts, i)
    requires Offset(parts, j + 1) <= |a.triples|
    ensures HoldsPart(Accumulator(Overwritten(a.triples, Offset(parts, j), parts[j].triples),
                                  Overwritten(a.adjust, Offset(parts, j), parts[j].bits)), parts, i)
  {
    if i < j {
      OffsetMonotone(parts, i + 1, j);
    } else {
      OffsetMonotone(parts, j + 1, i);
    }
    OverwriteFrame(a.triples, Offset(parts, j), parts[j].triples, Offset(parts, i), Offset(parts, i + 1));
    OverwriteFrame(a.adjust, Offset(parts, j), parts[j].bits, Offset(parts, i), Offset(parts, i + 1));
  }

  /** Starting another execution leaves the windows alone. */
  lemma StartHolds(parts: seq<Part>, stale: seq<bool>, before: seq<Event>, events: seq<Event>, i: nat)
    requires PartsOk(parts) && events == before + [Start] && Legal(events, |parts|) && Started(before) < |parts|
    requires i < |parts| && HoldsPart(Replay(parts, stale, before), parts, i)
    ensures Started(events) <= |parts| && HoldsPart(Replay(parts, stale, events), parts, i)
  {
    assert events[..|events| - 1] == before;
    ExtendFrame(Replay(parts, stale, before), parts, i, |parts[Started(before)].triples|);
  }

  /** Finishing execution `j` fills its window and leaves the others alone. */
  lemma FinishHolds(parts: seq<Part>, stale: seq<bool>, before: seq<Event>, events: seq<Event>, i: nat, j: nat)
    requires PartsOk(parts) && events == before + [Finish(j)] && Legal(events, |parts|) && Started(before) <= |parts|
    requires i < |parts| && (i == j || HoldsPart(Replay(parts, stale, before), parts, i))
    ensures Started(events) <= |parts| && HoldsPart(Replay(parts, stale, events), parts, i)
  {
    assert events[..|events| - 1] == before;
    OffsetMonotone(parts, j + 1, Started(before));
    if i != j {
      WriteFrame(Replay(parts, stale, before), parts, i, j);
    } else {
      Overwrites(Replay(parts, stale, before), parts, j);
    }
  }

  lemma Overwrites(a: Accumulator, parts: seq<Part>, j: nat)
    requires j < |parts| && PartsOk(parts) && Offset(parts, j + 1) <= |a.triples| == |a.adjust|
    ensures HoldsPart(Accumulator(Overwritten(a.triples, Offset(parts, j), parts[j].triples),
                                  Overwritten(a.adjust, Offset(parts, j), parts[j].bits)), parts, j)
  {
  }

  /** A finished execution's window holds its record from then on, whatever starts or finishes later. */
  lemma {:induction false} FinishedHold(parts: seq<Part>, stale: seq<bool>, events: seq<Event>, i: nat)
    requires PartsOk(parts) && Legal(events, |parts|) && Started(events) <= |parts| && i in Finished(events)
    ensures i < Started(events) && HoldsPart(Replay(parts, stale, events), parts, i)
  {
    var before, e := events[..|events| - 1], events[|events| - 1];
    assert events == before + [e];
    LegalStarted(before, |parts|);
    if i in Finished(before) {
      FinishedHold(parts, stale, before, i);
    }
    if e.Start? {
      StartHolds(parts, stale, before, events, i);
    } else {
      FinishHolds(parts, stale, before, events, i, e.i);
    }
  }

  /** The records of the first `n` executions, one after the other. */
  function AllTriples(parts: seq<Part>, n: nat): (r: seq<Triple>)
    requires n <= |parts|
    ensures |r| == Offset(parts, n)
  {
    if n == 0 then [] else AllTriples(parts, n - 1) + parts[n - 1].triples
  }

  function AllBits(parts: seq<Part>, n: nat): (r: seq<bool>)
    requires n <= |parts| && PartsOk(parts)
    ensures |r| == Offset(parts, n)
  {
    if n == 0 then [] else AllBits(parts, n - 1) + parts[n - 1].bits
  }

  lemma {:induction false} WindowsConcatenate(a: Accumulator, parts: seq<Part>, n: nat)
    requires PartsOk(parts) && n <= |parts| && forall i | 0 <= i < n :: HoldsPart(a, parts, i)
    requires Offset(parts, n) <= |a.triples| && (n > 0 ==> |a.adjust| == |a.triples|)
    ensures a.triples[..Offset(parts, n)] == AllTriples(parts, n)
    ensures n > 0 ==> a.adjust[..Offset(parts, n)] == AllBits(parts, n)
  {
    if n > 0 {
      var lo, hi := Offset(parts, n - 1), Offset(parts, n);
      WindowsConcatenate(a, parts, n - 1);
      assert HoldsPart(a, parts, n - 1);
      assert a.triples[..hi] == a.triples[..lo] + a.triples[lo..hi];
      assert a.adjust[..hi] == a.adjust[..lo] + a.adjust[lo..hi];
    }
  }

  /** Every execution has started and finished. */
  predicate Complete(events: seq<Event>, m: nat) {
    Legal(events, m) && Started(events) == m && forall i | 0 <= i < m :: i in Finished(events)
  }

  lemma AppendLegal(events: seq<Event>, e: Event, m: nat)
    requires Legal(events, m) && (e.Start? ==> Started(events) < m)
    requires e.Finish? ==> e.i < Started(events) && e.i !in Finished(events)
    ensures Legal(events + [e], m) && Started(events + [e]) == Started(events) + (if e.Start? then 1 else 0)
    ensures Finished(events + [e]) == Finished(events) + if e.Finish? then {e.i} else {}
  {
    assert (events + [e])[..|events|] == events;
  }

  /** Executions may start and finish in any legal order: every legal prefix extends to a complete schedule in which the
      execution `first`, if it is under way, is the next to finish. */
  lemma {:induction false} EveryPrefixCompletes(events: seq<Event>, m: nat, first: nat) returns (rest: seq<Event>)
    requires Legal(events, m)
    ensures Complete(events + rest, m)
    ensures first < Started(events) && first !in Finished(events) ==> rest != [] && rest[0] == Finish(first)
    decreases m - Started(events), |Below(m) - Finished(events)|, 1
  {
    LegalStarted(events, m);
    if first < Started(events) && first !in Finished(events) {
      rest := CompletedBy(events, m, Finish(first));
    } else if Started(events) < m {
      rest := CompletedBy(events, m, Start);
    } else if i: nat :| i < m && i !in Finished(events) {
      rest := CompletedBy(events, m, Finish(i));
    } else {
      rest := [];
      assert events + [] == events;
    }
  }

  /** The indices below `m`. */
  function Below(m: nat): (r: set<nat>)
    ensures forall i: nat :: i in r <==> i < m
  {
    if m == 0 then {} else Below(m - 1) + {m - 1}
  }

  lemma {:induction false} CompletedBy(events: seq<Event>, m: nat, e: Event) returns (rest: seq<Event>)
    requires Legal(events, m) && Started(events) <= m && (e.Start? ==> Started(events) < m)
    requires e.Finish? ==> e.i < Started(events) && e.i !in Finished(events)
    ensures Complete(events + rest, m) && rest != [] && rest[0] == e
    decreases m - Started(events), |Below(m) - Finished(events)|, 0
  {
    AppendLegal(events, e, m);
    var next := events + [e];
    if e.Finish? {
      FewerLeft(Below(m), Finished(events), Finished(next), e.i);
    }
    var more := EveryPrefixCompletes(next, m, m);
    rest := [e] + more;
    assert events + rest == next + more;
  }

  lemma FewerLeft(all: set<nat>, done: set<nat>, done': set<nat>, i: nat)
    requires i in all && i !in done && done' == done + {i}
    ensures |all - done'| < |all - done|
  {
    assert all - done' == (all - done) - {i};
    Smaller(all - done, i);
  }

  lemma Smaller(s: set<nat>, i: nat)
    requires i in s
    ensures |s - {i}| < |s|
  {
    assert s == (s - {i}) + {i};
  }

  /** However the executions overlapped, the accumulator ends up with their records in the order they were started. */
  lemma AnyOrderConcatenates(parts: seq<Part>, stale: seq<bool>, events: seq<Event>)
    requires PartsOk(parts) && Complete(events, |parts|)
    ensures Replay(parts, stale, events).triples == AllTriples(parts, |parts|)
    ensures parts != [] ==> Replay(parts, stale, events).adjust == AllBits(parts, |parts|)
  {
    var a := Replay(parts, stale, events);
    forall i | 0 <= i < |parts| ensures HoldsPart(a, parts, i) {
      FinishedHold(parts, stale, events, i);
    }
    WindowsConcatenate(a, parts, |parts|);
    assert a.triples[..Offset(parts, |parts|)] == a.triples;
    if parts != [] {
      assert a.adjust[..Offset(parts, |parts|)] == a.adjust;
    }
  }

  /** Prover and verifier recorded the same gates with the same bits. */
  predicate PartsMatch(p: seq<Part>, v: seq<Part>, delta: Block) {
    |p| == |v| && forall i | 0 <= i < |p| :: GoodTriples(p[i].triples, v[i].triples, delta) && p[i].bits == v[i].bits
  }

  lemma {:induction false} MatchConcatenates(p: seq<Part>, v: seq<Part>, delta: Block, n: nat)
    requires PartsMatch(p, v, delta) && PartsOk(p) && PartsOk(v) && n <= |p|
    ensures GoodTriples(AllTriples(p, n), AllTriples(v, n), delta) && AllBits(p, n) == AllBits(v, n)
  {
    if n > 0 {
      MatchConcatenates(p, v, delta, n - 1);
      GoodConcat(AllTriples(p, n - 1), AllTriples(v, n - 1), p[n - 1].triples, v[n - 1].triples, delta);
    }
  }

  lemma GoodConcat(m: seq<Triple>, k: seq<Triple>, m': seq<Triple>, k': seq<Triple>, delta: Block)
    requires GoodTriples(m, k, delta) && GoodTriples(m', k', delta)
    ensures GoodTriples(m + m', k + k', delta)
  {
    forall i | 0 <= i < |m + m'| ensures TripleAuthenticates((m + m')[i], (k + k')[i], delta) && !Bad((m + m')[i]) {
      if i >= |m| {
        assert (m + m')[i] == m'[i - |m|] && (k + k')[i] == k'[i - |m|];
      }
    }
  }

  /** Two parties that start the same executions in the same order end up aligned gate by gate, even if their
      executions finish in different orders. */
  lemma PartiesAligned(p: seq<Part>, v: seq<Part>, delta: Block, staleP: seq<bool>, staleV: seq<bool>,
                       eventsP: seq<Event>, eventsV: seq<Event>)
    requires PartsMatch(p, v, delta) && PartsOk(p) && PartsOk(v)
    requires Complete(eventsP, |p|) && Complete(eventsV, |v|)
    ensures GoodTriples(Replay(p, staleP, eventsP).triples, Replay(v, staleV, eventsV).triples, delta)
    ensures p != [] ==> Replay(p, staleP, eventsP).adjust == Replay(v, staleV, eventsV).adjust
  {
    AnyOrderConcatenates(p, staleP, eventsP);
    AnyOrderConcatenates(v, staleV, eventsV);
    MatchConcatenates(p, v, delta, |p|);
  }

  /** After executions that recorded matching gates the verifier accepts the prover's message, both deriving the
      random coefficients from their own copy of the adjustment bits. */
  lemma AlignedRunsAccepted(p: seq<Part>, v: seq<Part>, delta: Block, staleP: seq<bool>, staleV: seq<bool>,
                            eventsP: seq<Event>, eventsV: seq<Event>,
                            transcript: seq<Bits>, hash: seq<Bits> -> nat, rng: (nat, nat, nat) -> Block,
                            choices: seq<bool>, ev: seq<Block>, svoleKeys: seq<Block>)
    requires PartsMatch(p, v, delta) && PartsOk(p) && PartsOk(v) && p != []
    requires Complete(eventsP, |p|) && Complete(eventsV, |v|) && Correlated(svoleKeys, choices, ev, delta)
    ensures var a, b := Replay(p, staleP, eventsP), Replay(v, staleV, eventsV);
            VerifierAccepts(b.triples, rng, hash(transcript + [b.adjust]), delta, svoleKeys,
                            ProverMessage(a.triples, rng, hash(transcript + [a.adjust]), choices, ev))
  {
    PartiesAligned(p, v, delta, staleP, staleV, eventsP, eventsV);
    var a, b := Replay(p, staleP, eventsP), Replay(v, staleV, eventsV);
    AcceptsIff(a.triples, b.triples, delta, rng, hash(transcript + [a.adjust]), choices, ev, svoleKeys);
  }

  // Honest executions.

  /** One execution: its circuit, both parties' input wires, and its gate OTs. */
  datatype Execution = Execution(circ: Circuit, macs: seq<Block>, keys: seq<Block>, masks: seq<bool>,
                                 gateMacs: seq<Block>, gateKeys: seq<Block>)

  /** The inputs are authenticated and the gate OTs correlated. */
  ghost predicate Honest(e: Execution, delta: Block) {
    && e.circ.WellFormed() && |e.macs| == |e.keys| == e.circ.inputs
    && (forall i | 0 <= i < e.circ.inputs :: Auth(e.macs[i], e.keys[i], e.macs[i][0], delta))
    && OtsCorrelated(e.circ.andCount, e.gateMacs, e.gateKeys, e.masks, delta)
  }

  lemma AllFit(c: Circuit)
    requires c.WellFormed()
    ensures Fits(c.gates, c.feedCount)
  {
    FitsPrefix(c, |c.gates|, c.feedCount);
    assert c.gates[..|c.gates|] == c.gates;
  }

  /** The adjustment bits the prover sends during an execution. */
  ghost function SentBits(e: Execution): (r: seq<bool>)
    requires e.circ.WellFormed()
    ensures |r| == AndCount(e.circ.gates)
  {
    AllFit(e.circ);
    Adjusts(e.circ.gates, Extended(e.macs, e.circ.feedCount), e.gateMacs, e.masks)
  }

  ghost function ProverPart(e: Execution): (r: Part)
    requires e.circ.WellFormed()
    ensures |r.triples| == |r.bits|
  {
    AllFit(e.circ);
    Part(MacTriples(e.circ.gates, Extended(e.macs, e.circ.feedCount), e.gateMacs), SentBits(e))
  }

  ghost function VerifierPart(e: Execution, delta: Block): (r: Part)
    requires e.circ.WellFormed()
    ensures |r.triples| == |r.bits|
  {
    AllFit(e.circ);
    Part(KeyTriples(e.circ.gates, Extended(e.keys, e.circ.feedCount), e.gateKeys, SentBits(e), delta), SentBits(e))
  }

  /** An honest execution records matching gates. */
  lemma HonestMatches(e: Execution, delta: Block)
    requires Honest(e, delta) && delta[0]
    ensures GoodTriples(ProverPart(e).triples, VerifierPart(e, delta).triples, delta)
  {
    var c := e.circ;
    var bits := seq(c.inputs, i requires 0 <= i < c.inputs => e.macs[i][0]);
    var wires := bits + seq(c.feedCount - c.inputs, _ => false);
    RunSolves(c, bits, wires);
    AllFit(c);
    RunResults(c, Extended(e.macs, c.feedCount), Extended(e.keys, c.feedCount), e.macs, e.keys,
               Val(Run(c.gates, wires)), delta, e.gateMacs, e.gateKeys, e.masks, SentBits(e));
  }

  ghost predicate AllHonest(es: seq<Execution>, delta: Block) {
    forall i | 0 <= i < |es| :: Honest(es[i], delta)
  }

  /** What the prover records in each execution, in starting order. */
  ghost function ProverParts(es: seq<Execution>): (r: seq<Part>)
    requires forall i | 0 <= i < |es| :: es[i].circ.WellFormed()
    ensures |r| == |es| && forall i | 0 <= i < |es| :: r[i] == ProverPart(es[i])
  {
    seq(|es|, i requires 0 <= i < |es| => ProverPart(es[i]))
  }

  ghost function VerifierParts(es: seq<Execution>, delta: Block): (r: seq<Part>)
    requires forall i | 0 <= i < |es| :: es[i].circ.WellFormed()
    ensures |r| == |es| && forall i | 0 <= i < |es| :: r[i] == VerifierPart(es[i], delta)
  {
    seq(|es|, i requires 0 <= i < |es| => VerifierPart(es[i], delta))
  }

  /** Honest executions record matching gates. */
  lemma HonestPartsMatch(es: seq<Execution>, delta: Block)
    requires AllHonest(es, delta) && delta[0]
    ensures PartsMatch(ProverParts(es), VerifierParts(es, delta), delta)
    ensures PartsOk(ProverParts(es)) && PartsOk(VerifierParts(es, delta))
  {
    var p, v := ProverParts(es), VerifierParts(es, delta);
    forall i | 0 <= i < |es|
      ensures GoodTriples(p[i].triples, v[i].triples, delta) && p[i].bits == v[i].bits
      ensures |p[i].bits| == |p[i].triples| && |v[i].bits| == |v[i].triples|
    {
      HonestMatches(es[i], delta);
    }
  }

  /** After any overlapping of honest executions of any circuits on authenticated inputs, the verifier accepts. */
  lemma OverlappingRunsAccepted(es: seq<Execution>, delta: Block, staleP: seq<bool>, staleV: seq<bool>,
                                eventsP: seq<Event>, eventsV: seq<Event>,
                                transcript: seq<Bits>, hash: seq<Bits> -> nat, rng: (nat, nat, nat) -> Block,
                                choices: seq<bool>, ev: seq<Block>, svoleKeys: seq<Block>)
    requires es != [] && AllHonest(es, delta) && delta[0]
    requires Complete(eventsP, |es|) && Complete(eventsV, |es|) && Correlated(svoleKeys, choices, ev, delta)
    ensures PartsOk(ProverParts(es)) && PartsOk(VerifierParts(es, delta))
    ensures var a, b := Replay(ProverParts(es), staleP, eventsP), Replay(VerifierParts(es, delta), staleV, eventsV);
            VerifierAccepts(b.triples, rng, hash(transcript + [b.adjust]), delta, svoleKeys,
                            ProverMessage(a.triples, rng, hash(transcript + [a.adjust]), choices, ev))
  {
    HonestPartsMatch(es, delta);
    AlignedRunsAccepted(ProverParts(es), VerifierParts(es, delta), delta, staleP, staleV, eventsP, eventsV,
                        transcript, hash, rng, choices, ev, svoleKeys);
  }
}
