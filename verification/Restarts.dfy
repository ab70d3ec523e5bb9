/**
 The store under daemon restarts and failing writes: after a restart it goes on from what
 the file holds, and compares with an uninterrupted store over the calls that survived.
 */
module Restarts {
  import opened Outcomes
  import opened Metrics
  import opened MetricsTheorems

  /** A running daemon's store and the file it writes. */
  datatype Process = Process(mem: MetricsState, file: Option<MetricsState>)

  /** A call on the store, or a restart of the daemon, which opens the file again; and what its write did. */
  datatype Step = Call(event: LogEvent, write: WriteOutcome) | Restart(when: nat, write: WriteOutcome)

  function StepTime(step: Step): nat {
    match step
    case Call(e, _) => e.at
    case Restart(at, _) => at
  }

  function Open(file: Option<MetricsState>, now: nat, w: WriteOutcome): Process {
    Process(Loaded(file, now), FileAfter(file, Loaded(file, now), w))
  }

  /** A snapshot does not write. */
  function Advance(p: Process, step: Step): Process {
    match step
    case Restart(at, w) => Open(p.file, at, w)
    case Call(e, w) =>
      var mem := Apply(p.mem, e);
      Process(mem, if e.SnapshotTaken? then p.file else FileAfter(p.file, mem, w))
  }

  function RunSteps(p: Process, steps: seq<Step>): Process {
    if steps == [] then p
    else Advance(RunSteps(p, steps[..|steps| - 1]), steps[|steps| - 1])
  }

  /** The calls among the steps. */
  function Calls(steps: seq<Step>): seq<LogEvent> {
    if steps == [] then []
    else
      var step := steps[|steps| - 1];
      Calls(steps[..|steps| - 1]) + if step.Call? then [step.event] else []
  }

  predicate ChronologicalSteps(t0: nat, steps: seq<Step>) {
    && (forall i | 0 <= i < |steps| :: t0 <= StepTime(steps[i]))
    && (forall i, j | 0 <= i < j < |steps| :: StepTime(steps[i]) <= StepTime(steps[j]))
  }

  function LastStepTime(t0: nat, steps: seq<Step>): nat {
    if steps == [] then t0 else StepTime(steps[|steps| - 1])
  }

  // ---------------------------------------------------------------- what survives

  /** An uninterrupted store: opened over a file, then called. */
  datatype Trace = Trace(start: Option<MetricsState>, since: nat, log: seq<LogEvent>)

  /** What the file holds: something from outside the run, nothing after damage, or what a trace has recorded. */
  datatype Held = Raw(contents: Option<MetricsState>) | Saved(trace: Trace)

  /** The calls that memory and file account for. */
  datatype Survival = Survival(mem: Trace, held: Held)

  function Replayed(tr: Trace): MetricsState {
    Run(Loaded(tr.start, tr.since), tr.log)
  }

  function Called(tr: Trace, e: LogEvent): Trace {
    tr.(log := tr.log + [e])
  }

  function HeldAfter(held: Held, mem: Trace, w: WriteOutcome): Held {
    match w
    case Stored => Saved(mem)
    case Kept => held
    case Damaged => Raw(None)
  }

  /** A restart forgets what the file does not hold. */
  function Reopened(held: Held, now: nat): Trace {
    match held
    case Raw(contents) => Trace(contents, now, [])
    case Saved(trace) => trace
  }

  /** A snapshot records nothing, so it counts as held whether it was written or not. */
  function Survives(v: Survival, step: Step): Survival {
    match step
    case Restart(at, w) =>
      var mem := Reopened(v.held, at);
      Survival(mem, HeldAfter(v.held, mem, w))
    case Call(e, w) =>
      var mem := Called(v.mem, e);
      Survival(mem, if !e.SnapshotTaken? then HeldAfter(v.held, mem, w)
                    else if v.held.Saved? then Saved(Called(v.held.trace, e))
                    else v.held)
  }

  function Surviving(file: Option<MetricsState>, t0: nat, w: WriteOutcome, steps: seq<Step>): Survival {
    if steps == [] then
      var mem := Trace(file, t0, []);
      Survival(mem, HeldAfter(Raw(file), mem, w))
    else Survives(Surviving(file, t0, w, steps[..|steps| - 1]), steps[|steps| - 1])
  }

  /** The outcome of the latest write, the one at the start included. */
  function LatestWrite(w: WriteOutcome, steps: seq<Step>): WriteOutcome {
    if steps == [] then w
    else
      var step := steps[|steps| - 1];
      if step.Call? && step.event.SnapshotTaken? then LatestWrite(w, steps[..|steps| - 1]) else step.write
  }

  /** Whenever the daemon restarts, its latest write had succeeded; earlier ones may have failed. */
  predicate RestartsFindWritten(w: WriteOutcome, steps: seq<Step>) {
    forall i | 0 <= i < |steps| && steps[i].Restart? :: LatestWrite(w, steps[..i]).Stored?
  }

  lemma CallsStep(steps: seq<Step>)
    requires steps != []
    ensures var before, step := Calls(steps[..|steps| - 1]), steps[|steps| - 1];
            Calls(steps) == if step.Call? then before + [step.event] else before
  {
  }

  lemma {:induction false} NothingLostStep(file: Option<MetricsState>, t0: nat, w: WriteOutcome, steps: seq<Step>)
    requires RestartsFindWritten(w, steps)
    ensures var v := Surviving(file, t0, w, steps);
            && v.mem == Trace(file, t0, Calls(steps))
            && (LatestWrite(w, steps).Stored? ==> v.held == Saved(v.mem))
  {
    if steps != [] {
      var n := |steps| - 1;
      assert forall i | 0 <= i < n :: steps[..n][..i] == steps[..i];
      NothingLostStep(file, t0, w, steps[..n]);
      CallsStep(steps);
    }
  }

  /** If the latest write before each restart succeeded, every call survives, whatever writes failed before. */
  lemma NothingLost(file: Option<MetricsState>, t0: nat, w: WriteOutcome, steps: seq<Step>)
    requires RestartsFindWritten(w, steps)
    ensures Surviving(file, t0, w, steps).mem == Trace(file, t0, Calls(steps))
  {
    NothingLostStep(file, t0, w, steps);
  }

  // ---------------------------------------------------------------- restart simulation

  /** Equal but for a baseline at most one higher and what that adds to the time saved. */
  ghost predicate AlmostEqual(a: MetricsState, b: MetricsState) {
    && b.dayIndex == a.dayIndex
    && b.perHost == a.perHost
    && a.baselineHandshakeMs <= b.baselineHandshakeMs <= a.baselineHandshakeMs + 1
    && b.totals == a.totals.(timeSavedMs := b.totals.timeSavedMs)
    && a.totals.timeSavedMs <= b.totals.timeSavedMs <= a.totals.timeSavedMs + a.totals.reused
  }

  lemma RollTwice(s: MetricsState, t: nat, t': nat)
    requires s.dayIndex <= Day(t) && t <= t'
    ensures Rolled(Rolled(s, t), t') == Rolled(s, t')
  {
    DayMonotone(t, t');
  }

  lemma ApplyRolled(s: MetricsState, e: LogEvent)
    ensures Apply(s, e) == Apply(Rolled(s, e.at), e)
    ensures Rolled(Apply(s, e), e.at) == Apply(s, e)
  {
  }

  lemma ApplyKeepsAlmostEqual(a: MetricsState, b: MetricsState, e: LogEvent)
    requires AlmostEqual(a, b) && a.dayIndex == Day(e.at)
    ensures AlmostEqual(Apply(a, e), Apply(b, e))
  {
  }

  /** Seen at time `t`, `b` is `a` but for the gap of `AlmostEqual`, and without it if `exact`. */
  ghost predicate Close(a: MetricsState, b: MetricsState, t: nat, exact: bool) {
    && a.dayIndex <= Day(t) && b.dayIndex <= Day(t)
    && AlmostEqual(Rolled(a, t), Rolled(b, t))
    && (exact ==> Rolled(a, t) == Rolled(b, t))
  }

  lemma CloseLater(a: MetricsState, b: MetricsState, t: nat, t': nat, exact: bool)
    requires Close(a, b, t, exact) && t <= t'
    ensures Close(a, b, t', exact)
  {
    DayMonotone(t, t');
    RollTwice(a, t, t');
    RollTwice(b, t, t');
  }

  lemma CloseApplied(a: MetricsState, b: MetricsState, e: LogEvent, exact: bool)
    requires Close(a, b, e.at, exact)
    ensures Close(Apply(a, e), Apply(b, e), e.at, exact)
  {
    ApplyRolled(a, e);
    ApplyRolled(b, e);
    ApplyKeepsAlmostEqual(Rolled(a, e.at), Rolled(b, e.at), e);
  }

  /** A snapshot of one side only is not seen. */
  lemma CloseSnapshot(a: MetricsState, b: MetricsState, at: nat, exact: bool)
    requires Close(a, b, at, exact)
    ensures Close(Apply(a, SnapshotTaken(at)), b, at, exact)
  {
  }

  /** Reading the file again raises a baseline of zero to one, and does nothing else. */
  lemma CloseReloaded(a: MetricsState, b: MetricsState, t: nat, exact: bool)
    requires Close(a, b, t, exact)
    ensures Close(a, Loaded(Some(b), t), t, false)
    ensures exact ==> (Close(a, Loaded(Some(b), t), t, true) <==> b.baselineHandshakeMs > 0)
  {
  }

  lemma CloseToItself(a: MetricsState, t: nat)
    requires a.dayIndex <= Day(t)
    ensures Close(a, a, t, true)
  {
  }

  lemma CloseWeaker(a: MetricsState, b: MetricsState, t: nat)
    requires Close(a, b, t, true)
    ensures Close(a, b, t, false)
  {
  }

  lemma ReplayedCalled(tr: Trace, e: LogEvent)
    ensures Replayed(Called(tr, e)) == Apply(Replayed(tr), e)
  {
    hide Apply;
    RunAppended(Loaded(tr.start, tr.since), tr.log, e);
  }

  ghost predicate FileRelated(held: Held, file: Option<MetricsState>, t: nat, exact: bool) {
    match held
    case Raw(contents) => file == contents
    case Saved(trace) => file.Some? && Close(Replayed(trace), file.value, t, exact)
  }

  /** How the process compares at time `t` with uninterrupted stores over the calls that survived. */
  ghost predicate Related(v: Survival, p: Process, t: nat, exact: bool) {
    Close(Replayed(v.mem), p.mem, t, exact) && FileRelated(v.held, p.file, t, exact)
  }

  lemma RelatedLater(v: Survival, p: Process, t: nat, t': nat, exact: bool)
    requires Related(v, p, t, exact) && t <= t'
    ensures Related(v, p, t', exact)
  {
    hide Close, Replayed;
    CloseLater(Replayed(v.mem), p.mem, t, t', exact);
    if v.held.Saved? {
      CloseLater(Replayed(v.held.trace), p.file.value, t, t', exact);
    }
  }

  /** A restart does not read a baseline of zero from a file this run has written. */
  ghost predicate BaselineFound(held: Held, file: Option<MetricsState>, step: Step) {
    step.Restart? && held.Saved? && file.Some? ==> file.value.baselineHandshakeMs > 0
  }

  lemma WriteRelated(held: Held, mem: Trace, file: Option<MetricsState>, s: MetricsState, w: WriteOutcome, t: nat,
                     exact: bool)
    requires FileRelated(held, file, t, exact) && Close(Replayed(mem), s, t, exact)
    ensures FileRelated(HeldAfter(held, mem, w), FileAfter(file, s, w), t, exact)
  {
    hide Close, Replayed;
  }

  lemma CallRelated(v: Survival, p: Process, step: Step, exact: bool)
    requires step.Call? && Related(v, p, StepTime(step), exact)
    ensures Related(Survives(v, step), Advance(p, step), StepTime(step), exact)
  {
    hide Close, Replayed, Apply;
    var e := step.event;
    ReplayedCalled(v.mem, e);
    CloseApplied(Replayed(v.mem), p.mem, e, exact);
    if !e.SnapshotTaken? {
      WriteRelated(v.held, Called(v.mem, e), p.file, Apply(p.mem, e), step.write, e.at, exact);
    } else if v.held.Saved? {
      ReplayedCalled(v.held.trace, e);
      CloseSnapshot(Replayed(v.held.trace), p.file.value, e.at, exact);
    }
  }

  lemma RestartRelated(v: Survival, p: Process, step: Step, exact: bool)
    requires step.Restart? && Related(v, p, step.when, exact)
    ensures Related(Survives(v, step), Advance(p, step), step.when, false)
    ensures exact ==> (Related(Survives(v, step), Advance(p, step), step.when, true) <==>
                       BaselineFound(v.held, p.file, step))
  {
    hide Close, Loaded, Run;
    var at, mem := step.when, Reopened(v.held, step.when);
    match v.held {
      case Raw(contents) =>
        assert Replayed(mem) == Loaded(contents, at) by { EmptyRun(Loaded(contents, at)); }
        LoadedToday(contents, at);
        CloseToItself(Loaded(contents, at), at);
        CloseWeaker(Loaded(contents, at), Loaded(contents, at), at);
      case Saved(trace) =>
        CloseReloaded(Replayed(trace), p.file.value, at, exact);
    }
    Weaker(v, p, at, exact);
    var s := Loaded(p.file, at);
    WriteRelated(v.held, mem, p.file, s, step.write, at, false);
    if exact && BaselineFound(v.held, p.file, step) {
      WriteRelated(v.held, mem, p.file, s, step.write, at, true);
    }
  }

  lemma EmptyRun(s: MetricsState)
    ensures Run(s, []) == s
  {
  }

  lemma LoadedToday(file: Option<MetricsState>, now: nat)
    ensures Loaded(file, now).dayIndex == Day(now)
  {
  }

  lemma Weaker(v: Survival, p: Process, t: nat, exact: bool)
    requires Related(v, p, t, exact)
    ensures Related(v, p, t, false)
  {
  }

  /** One step, whatever its write does; exactly unless a restart finds a baseline of zero. */
  lemma StepSimulation(v: Survival, p: Process, u: nat, step: Step, exact: bool)
    requires Related(v, p, u, exact) && u <= StepTime(step)
    ensures Related(Survives(v, step), Advance(p, step), StepTime(step), false)
    ensures exact ==> (Related(Survives(v, step), Advance(p, step), StepTime(step), true) <==>
                       BaselineFound(v.held, p.file, step))
  {
    hide Related, Survives, Advance;
    RelatedLater(v, p, u, StepTime(step), exact);
    if step.Call? {
      CallRelated(v, p, step, exact);
      Weaker(Survives(v, step), Advance(p, step), StepTime(step), exact);
    } else {
      RestartRelated(v, p, step, exact);
    }
  }

  lemma OpenedRelated(file: Option<MetricsState>, t0: nat, w: WriteOutcome)
    ensures Related(Surviving(file, t0, w, []), Open(file, t0, w), t0, true)
  {
    hide Loaded, Close;
    LoadedToday(file, t0);
    CloseToItself(Loaded(file, t0), t0);
  }

  lemma {:induction false} RestartSimulationAt(file: Option<MetricsState>, t0: nat, w: WriteOutcome, steps: seq<Step>)
    requires ChronologicalSteps(t0, steps)
    ensures Related(Surviving(file, t0, w, steps), RunSteps(Open(file, t0, w), steps), LastStepTime(t0, steps), false)
  {
    hide Related, Survives, Advance, Open;
    if steps == [] {
      OpenedRelated(file, t0, w);
      Weaker(Surviving(file, t0, w, []), Open(file, t0, w), t0, true);
    } else {
      var before, step := steps[..|steps| - 1], steps[|steps| - 1];
      RestartSimulationAt(file, t0, w, before);
      StepSimulation(Surviving(file, t0, w, before), RunSteps(Open(file, t0, w), before), LastStepTime(t0, before),
                     step, false);
    }
  }

  /**
   With restarts and failing writes anywhere, the store has the counters and the per-host
   map of an uninterrupted store over the calls that survived; the baseline is at most one
   millisecond higher and today's time saved at most one millisecond higher for each
   reuse. If the latest write before each restart succeeded, those are all calls.
   */
  lemma RestartSimulation(file: Option<MetricsState>, t0: nat, w: WriteOutcome, steps: seq<Step>, now: nat)
    requires ChronologicalSteps(t0, steps)
    requires t0 <= now && forall i | 0 <= i < |steps| :: StepTime(steps[i]) <= now
    ensures AlmostEqual(Rolled(Replayed(Surviving(file, t0, w, steps).mem), now),
                        Rolled(RunSteps(Open(file, t0, w), steps).mem, now))
    ensures RestartsFindWritten(w, steps) ==>
              AlmostEqual(Rolled(Run(Loaded(file, t0), Calls(steps)), now),
                          Rolled(RunSteps(Open(file, t0, w), steps).mem, now))
  {
    hide Loaded, Open, Run, RunSteps, Calls, Surviving, RestartsFindWritten;
    RestartSimulationAt(file, t0, w, steps);
    var mem := Surviving(file, t0, w, steps).mem;
    CloseLater(Replayed(mem), RunSteps(Open(file, t0, w), steps).mem, LastStepTime(t0, steps), now, false);
    if RestartsFindWritten(w, steps) {
      NothingLost(file, t0, w, steps);
    }
  }

  // ---------------------------------------------------------------- invisible restarts

  /** After the first `n` steps, memory and file show exactly the calls that survived. */
  ghost predicate SameAfter(file: Option<MetricsState>, t0: nat, w: WriteOutcome, steps: seq<Step>, n: nat)
    requires n <= |steps|
  {
    var first := steps[..n];
    Related(Surviving(file, t0, w, first), RunSteps(Open(file, t0, w), first), LastStepTime(t0, first), true)
  }

  ghost predicate BaselineKept(file: Option<MetricsState>, t0: nat, w: WriteOutcome, steps: seq<Step>, n: nat)
    requires n < |steps|
  {
    var first := steps[..n];
    BaselineFound(Surviving(file, t0, w, first).held, RunSteps(Open(file, t0, w), first).file, steps[n])
  }

  lemma NextSame(file: Option<MetricsState>, t0: nat, w: WriteOutcome, steps: seq<Step>, n: nat)
    requires ChronologicalSteps(t0, steps) && n < |steps| && SameAfter(file, t0, w, steps, n)
    ensures SameAfter(file, t0, w, steps, n + 1) <==> BaselineKept(file, t0, w, steps, n)
  {
    hide Related, Survives, Advance, Open, BaselineFound;
    var before, longer := steps[..n], steps[..n + 1];
    assert longer[..n] == before && longer[n] == steps[n];
    assert n > 0 ==> before[n - 1] == steps[n - 1];
    StepSimulation(Surviving(file, t0, w, before), RunSteps(Open(file, t0, w), before), LastStepTime(t0, before),
                   steps[n], true);
  }

  lemma SameAtFirst(file: Option<MetricsState>, t0: nat, w: WriteOutcome, steps: seq<Step>)
    ensures SameAfter(file, t0, w, steps, 0)
  {
    assert steps[..0] == [];
    OpenedRelated(file, t0, w);
  }

  lemma {:induction false} SameWhileKept(file: Option<MetricsState>, t0: nat, w: WriteOutcome, steps: seq<Step>, n: nat)
    requires ChronologicalSteps(t0, steps) && n <= |steps|
    requires forall i | 0 <= i < |steps| :: BaselineKept(file, t0, w, steps, i)
    ensures SameAfter(file, t0, w, steps, n)
  {
    hide SameAfter, BaselineKept;
    if n == 0 {
      SameAtFirst(file, t0, w, steps);
    } else {
      SameWhileKept(file, t0, w, steps, n - 1);
      NextSame(file, t0, w, steps, n - 1);
    }
  }

  /**
   Restarts show nothing but the calls that survived, throughout a run with any failing
   writes, if and only if no restart reads a baseline of zero from a file this run has
   written, which the restart raises to one.
   */
  lemma RestartsInvisibleIff(file: Option<MetricsState>, t0: nat, w: WriteOutcome, steps: seq<Step>)
    requires ChronologicalSteps(t0, steps)
    ensures (forall n | 0 <= n <= |steps| :: SameAfter(file, t0, w, steps, n)) <==>
            (forall i | 0 <= i < |steps| :: BaselineKept(file, t0, w, steps, i))
  {
    hide SameAfter, BaselineKept;
    if forall i | 0 <= i < |steps| :: BaselineKept(file, t0, w, steps, i) {
      forall n | 0 <= n <= |steps|
        ensures SameAfter(file, t0, w, steps, n)
      {
        SameWhileKept(file, t0, w, steps, n);
      }
    }
    if forall n | 0 <= n <= |steps| :: SameAfter(file, t0, w, steps, n) {
      forall i | 0 <= i < |steps|
        ensures BaselineKept(file, t0, w, steps, i)
      {
        assert SameAfter(file, t0, w, steps, i + 1);
        NextSame(file, t0, w, steps, i);
      }
    }
  }

  // ---------------------------------------------------------------- the gaps are attained

  lemma StepsAppended(p: Process, steps: seq<Step>, step: Step)
    ensures RunSteps(p, steps + [step]) == Advance(RunSteps(p, steps), step)
    ensures Calls(steps + [step]) == if step.Call? then Calls(steps) + [step.event] else Calls(steps)
    ensures RunSteps(p, []) == p && Calls([]) == []
  {
    hide Advance;
    assert (steps + [step])[..|steps + [step]| - 1] == steps;
  }

  /** An uninterrupted store and a restarted one on day 0, as far apart as they get over so many reuses. */
  ghost predicate Apart(a: MetricsState, b: MetricsState, reuses: nat) {
    && a.dayIndex == b.dayIndex == 0
    && a.baselineHandshakeMs == 0 && b.baselineHandshakeMs == 1
    && a.totals.reused == reuses && b.totals.timeSavedMs == a.totals.timeSavedMs + reuses
  }

  lemma InstantHandshake(key: string, hostLabel: string)
    ensures var first := Connection(0, key, hostLabel, false, 0);
            var restarted := Advance(Advance(Open(None, 0, Stored), Call(first, Stored)), Restart(0, Stored));
            Apart(Apply(Loaded(None, 0), first), restarted.mem, 0)
  {
  }

  lemma InstantReuse(a: MetricsState, p: Process, reuses: nat, key: string, hostLabel: string)
    requires Apart(a, p.mem, reuses)
    ensures var reuse := Connection(0, key, hostLabel, true, 0);
            Apart(Apply(a, reuse), Advance(p, Call(reuse, Stored)).mem, reuses + 1)
  {
  }

  /**
   Both gaps of `RestartSimulation` are attained without a failed write: a handshake of
   0 ms, a restart, and any number of reuses of 0 ms.
   */
  lemma {:induction false} RestartGapAttained(key: string, hostLabel: string, reuses: nat) returns (steps: seq<Step>)
    ensures forall i | 0 <= i < |steps| :: StepTime(steps[i]) == 0 && steps[i].write == Stored
    ensures Apart(Run(Loaded(None, 0), Calls(steps)), RunSteps(Open(None, 0, Stored), steps).mem, reuses)
  {
    hide Apart, Apply, Advance, Loaded, Open, RunSteps, Calls;
    var p := Open(None, 0, Stored);
    if reuses == 0 {
      var first := Connection(0, key, hostLabel, false, 0);
      StepsAppended(p, [], Call(first, Stored));
      StepsAppended(p, [] + [Call(first, Stored)], Restart(0, Stored));
      RunAppended(Loaded(None, 0), [], first);
      InstantHandshake(key, hostLabel);
      steps := [] + [Call(first, Stored)] + [Restart(0, Stored)];
    } else {
      var before := RestartGapAttained(key, hostLabel, reuses - 1);
      var reuse := Connection(0, key, hostLabel, true, 0);
      StepsAppended(p, before, Call(reuse, Stored));
      RunAppended(Loaded(None, 0), Calls(before), reuse);
      InstantReuse(Run(Loaded(None, 0), Calls(before)), RunSteps(p, before), reuses - 1, key, hostLabel);
      steps := before + [Call(reuse, Stored)];
    }
  }

  // ---------------------------------------------------------------- conservation

  /** The contents count the calls of the log, and today's totals no more than those. */
  ghost predicate Counts(s: MetricsState, log: seq<LogEvent>) {
    HostsConserved(s.perHost, log) && TotalsWithin(s.totals, log)
  }

  lemma CountsNothing(now: nat)
    ensures Counts(Loaded(None, now), [])
  {
  }

  lemma CountsReloaded(s: MetricsState, log: seq<LogEvent>, now: nat)
    requires Counts(s, log)
    ensures Counts(Loaded(Some(s), now), log)
  {
  }

  lemma CountsCalled(s: MetricsState, log: seq<LogEvent>, e: LogEvent)
    requires Counts(s, log)
    ensures Counts(Apply(s, e), log + [e])
  {
    HostsStep(s.perHost, log, e);
    TotalsStep(s, log, e);
  }

  /** A snapshot counts nothing. */
  lemma CountsSnapshot(s: MetricsState, log: seq<LogEvent>, at: nat)
    requires Counts(s, log)
    ensures Counts(s, log + [SnapshotTaken(at)])
  {
    HostsStep(s.perHost, log, SnapshotTaken(at));
    TotalsStep(s.(dayIndex := Day(at)), log, SnapshotTaken(at));
  }

  ghost predicate FileCounts(held: Held, file: Option<MetricsState>) {
    match held
    case Raw(contents) => contents == None && file == None
    case Saved(trace) => trace.start == None && file.Some? && Counts(file.value, trace.log)
  }

  ghost predicate AllCounts(v: Survival, p: Process) {
    v.mem.start == None && Counts(p.mem, v.mem.log) && FileCounts(v.held, p.file)
  }

  lemma StepCounts(v: Survival, p: Process, step: Step)
    requires AllCounts(v, p)
    ensures AllCounts(Survives(v, step), Advance(p, step))
  {
    hide Counts, Apply, Loaded;
    match step {
      case Restart(at, _) =>
        CountsNothing(at);
        if v.held.Saved? {
          CountsReloaded(p.file.value, v.held.trace.log, at);
        }
      case Call(e, _) =>
        CountsCalled(p.mem, v.mem.log, e);
        if e.SnapshotTaken? && v.held.Saved? {
          CountsSnapshot(p.file.value, v.held.trace.log, e.at);
        }
    }
  }

  lemma {:induction false} ConservationStep(t0: nat, w: WriteOutcome, steps: seq<Step>)
    ensures AllCounts(Surviving(None, t0, w, steps), RunSteps(Open(None, t0, w), steps))
  {
    hide Counts, Survives, Advance, Loaded;
    if steps == [] {
      CountsNothing(t0);
    } else {
      var before, step := steps[..|steps| - 1], steps[|steps| - 1];
      ConservationStep(t0, w, before);
      StepCounts(Surviving(None, t0, w, before), RunSteps(Open(None, t0, w), before), step);
    }
  }

  /**
   From an empty store, over any run with restarts, any clock and any failing writes: each
   host's counters are the counts of its surviving calls, they sum to the totals of those,
   and today's totals never exceed them. If the latest write before each restart
   succeeded, every call survives.
   */
  lemma Conservation(t0: nat, w: WriteOutcome, steps: seq<Step>)
    ensures var s, log := RunSteps(Open(None, t0, w), steps).mem, Surviving(None, t0, w, steps).mem.log;
            && (forall kind: Kind | !kind.Reconnects? ::
                  && SumOverHosts(s.perHost, kind) == Count(log, Ever(kind))
                  && TotalOf(s.totals, kind) <= SumOverHosts(s.perHost, kind))
            && (forall key, kind: Kind | !kind.Reconnects? ::
                StatOf(s.perHost, key, kind) == Count(log, EverFor(kind, key)))
            && (forall key | key in s.perHost :: s.perHost[key].reused <= s.perHost[key].connections)
            && s.totals.reused <= s.totals.connections == s.totals.latencySamples
            && (RestartsFindWritten(w, steps) ==> log == Calls(steps))
  {
    hide RestartsFindWritten;
    ConservationStep(t0, w, steps);
    if RestartsFindWritten(w, steps) {
      NothingLost(None, t0, w, steps);
    }
    var s, log := RunSteps(Open(None, t0, w), steps).mem, Surviving(None, t0, w, steps).mem.log;
    forall key | key in s.perHost
      ensures s.perHost[key].reused <= s.perHost[key].connections
    {
      CountSplits(log, EverFor(Connections, key));
      assert StatOf(s.perHost, key, Reuses) == s.perHost[key].reused;
      assert StatOf(s.perHost, key, Connections) == s.perHost[key].connections;
    }
  }
}
