/**
 The maintenance driver: cordon, power off, power on, wait ready, uncordon, verify,
 with a journal written after every step. The functions are the specification; the
 classes work step by step and are proved equal to it.
 */
module NexusDriver {
  import opened NexusFleet

  datatype Step = DoCordon | DoPowerOff | DoPowerOn | DoWaitReady | DoUncordon | DoVerify

  const STEPS: seq<Step> := [DoCordon, DoPowerOff, DoPowerOn, DoWaitReady, DoUncordon, DoVerify]
  const SHUTDOWN: seq<Step> := [DoCordon, DoPowerOff]
  const RESTORE: seq<Step> := [DoPowerOn, DoWaitReady, DoUncordon, DoVerify]

  datatype Phase = FullPhase | ShutdownPhase | RestorePhase

  function PhaseSteps(phase: Phase): seq<Step> {
    match phase
    case FullPhase => STEPS
    case ShutdownPhase => SHUTDOWN
    case RestorePhase => RESTORE
  }

  /** What each step's poll waits to see; for verify, an empty health summary. */
  predicate Goal(step: Step, m: Machine) {
    match step
    case DoCordon => m.cordon == Cordoned
    case DoPowerOff => m.power == Off
    case DoPowerOn => m.power == On
    case DoWaitReady => m.ready && (m.detailed == Available || m.detailed == Provisioned)
    case DoUncordon => m.cordon == Uncordoned || m.cordon == NoCordonStatus
    case DoVerify => Healthy(m)
  }

  /** Steps that start by asking the platform to change something. */
  predicate HasCall(step: Step) {
    step != DoWaitReady && step != DoVerify
  }

  // ---------------------------------------------------------------- journal

  datatype LogResult = LogOk | LogFailed | LogError | LogBlocked

  datatype LogLine = LogLine(step: Step, result: LogResult)

  datatype Entry = Entry(completed: seq<Step>, log: seq<LogLine>)

  type Journal = map<string, Entry>

  function CompletedSteps(journal: Journal, name: string): seq<Step> {
    if name in journal then journal[name].completed else []
  }

  predicate Completed(journal: Journal, name: string, step: Step) {
    step in CompletedSteps(journal, name)
  }

  function Recorded(journal: Journal, name: string, step: Step, result: LogResult): Journal {
    var entry := if name in journal then journal[name] else Entry([], []);
    var completed := if result == LogOk && step !in entry.completed then entry.completed + [step] else entry.completed;
    journal[name := Entry(completed, entry.log + [LogLine(step, result)])]
  }

  // --------------------------------------------------------------- platform

  /** How an attempt ends for the driver: normally, with an HTTP error, or with the process killed. */
  datatype Ending = Returned | Raised | Killed

  /**
   The platform's answer to one attempt: the fleet found when it starts, which a headroom check and
   a verification read; the fleet the call is made on; and the fleets that follow, in time order,
   until the polling gives up. Nothing here says the fleet stands still in between.
   */
  datatype Response = Response(found: Fleet, called: Fleet, ending: Ending, seen: seq<Fleet>)

  /** Every fleet an attempt passes through. */
  function Fleets(r: Response): seq<Fleet> {
    [r.found, r.called] + r.seen
  }

  /**
   Everything outside the driver, for one run. A run attempts a step of a machine at most
   once, so a function of the fleet, the machine and the step is as free as a transcript.
   */
  type Platform = (Fleet, string, Step) -> Response

  datatype Outcome = StepOk | StepFailed | StepError | StepBlocked | StepKilled

  /** What an attempt leaves: its outcome, the fleet at its end and the fleets passed through on the way. */
  datatype Observation = Observation(outcome: Outcome, fleet: Fleet, passed: seq<Fleet>)

  function LastOf(fleet: Fleet, seen: seq<Fleet>): Fleet {
    if seen == [] then fleet else seen[|seen| - 1]
  }

  /** Polling: stop at the first observation that meets the goal, or when there are no more. */
  function Polled(step: Step, name: string, fleet: Fleet, seen: seq<Fleet>): Observation
    decreases |seen|
  {
    if seen == [] then
      Observation(StepFailed, fleet, [])
    else if name !in seen[0] then
      Observation(StepError, seen[0], [seen[0]])
    else if Goal(step, seen[0][name]) then
      Observation(StepOk, seen[0], [seen[0]])
    else
      var rest := Polled(step, name, seen[0], seen[1..]);
      rest.(passed := [seen[0]] + rest.passed)
  }

  /** An attempt past its gate. Verify only reads; every other step calls, if it has a call, and polls. */
  function Observed(step: Step, name: string, r: Response): Observation {
    if step == DoVerify then
      var outcome :=
        if r.ending == Killed then StepKilled
        else if r.ending == Raised || name !in r.found then StepError
        else if Healthy(r.found[name]) then StepOk
        else StepFailed;
      Observation(outcome, r.found, [])
    else
      match r.ending
      case Killed => Observation(StepKilled, LastOf(r.called, r.seen), [r.called] + r.seen)
      case Raised => Observation(StepError, LastOf(r.called, r.seen), [r.called] + r.seen)
      case Returned =>
        var o := Polled(step, name, r.called, r.seen);
        o.(passed := [r.called] + o.passed)
  }

  // ------------------------------------------------------------------- runs

  /** What happened, in order: headroom checks, calls, and the fleets the world passed through. */
  datatype Event =
    | Checked(target: string, scope: Scope, floor: int, passed: bool, fleet: Fleet)
    | Called(step: Step, target: string, fleet: Fleet)
    | Seen(fleet: Fleet)

  datatype Sys = Sys(fleet: Fleet, journal: Journal, trace: seq<Event>)

  datatype Config = Config(scope: Scope, floor: int, keepGoing: bool)

  datatype StepResult = StepResult(sys: Sys, outcome: Outcome)

  function SeenEvents(fleets: seq<Fleet>): seq<Event> {
    seq(|fleets|, i requires 0 <= i < |fleets| => Seen(fleets[i]))
  }

  function Noted(trace: seq<Event>, happened: bool, event: Event): seq<Event> {
    if happened then trace + [event] else trace
  }

  function ResultOf(outcome: Outcome): LogResult
    requires outcome != StepKilled
  {
    match outcome
    case StepOk => LogOk
    case StepFailed => LogFailed
    case StepError => LogError
    case StepBlocked => LogBlocked
  }

  /** One pass of the step loop's body: attempt a step, then write the journal. */
  ghost function Attempt(s: Sys, name: string, step: Step, cfg: Config, platform: Platform): StepResult {
    var r := platform(s.fleet, name, step);
    var found := s.trace + [Seen(r.found)];
    if step == DoPowerOff && !Headroom(r.found, cfg.scope, name, cfg.floor) then
      var journal := if r.ending == Killed then s.journal else Recorded(s.journal, name, step, LogBlocked);
      StepResult(Sys(r.found, journal, found + [Checked(name, cfg.scope, cfg.floor, false, r.found)]),
                 if r.ending == Killed then StepKilled else StepBlocked)
    else
      var o := Observed(step, name, r);
      var checked := Noted(found, step == DoPowerOff, Checked(name, cfg.scope, cfg.floor, true, r.found));
      var called := Noted(checked, HasCall(step), Called(step, name, r.called));
      var journal :=
        if o.outcome == StepKilled then s.journal else Recorded(s.journal, name, step, ResultOf(o.outcome));
      StepResult(Sys(o.fleet, journal, called + SeenEvents(o.passed)), o.outcome)
  }

  datatype MachineResult = MachineOk | FailedAt(step: Step) | BlockedNoHeadroom | MachineKilled
    | DryRun(steps: seq<Step>)

  datatype MachineRun = MachineRun(sys: Sys, result: MachineResult)

  function ResultRow(step: Step, outcome: Outcome): MachineResult {
    match outcome
    case StepOk => MachineOk
    case StepBlocked => BlockedNoHeadroom
    case StepKilled => MachineKilled
    case _ => FailedAt(step)
  }

  /** The step loop from position `i`: completed steps are skipped, the first trouble ends it. */
  ghost function MaintainFrom(s: Sys, name: string, steps: seq<Step>, i: nat, cfg: Config,
                              platform: Platform): MachineRun
    requires i <= |steps|
    decreases |steps| - i
  {
    if i == |steps| then
      MachineRun(s, MachineOk)
    else if Completed(s.journal, name, steps[i]) then
      MaintainFrom(s, name, steps, i + 1, cfg, platform)
    else
      var a := Attempt(s, name, steps[i], cfg, platform);
      if a.outcome == StepOk then
        MaintainFrom(a.sys, name, steps, i + 1, cfg, platform)
      else
        MachineRun(a.sys, ResultRow(steps[i], a.outcome))
  }

  datatype Row = Row(machine: string, result: MachineResult)

  datatype Run = Run(sys: Sys, rows: seq<Row>, killed: bool)

  /** The machine loop: one machine at a time; without --keep-going the first bad row ends it. */
  ghost function RunScope(s: Sys, names: seq<string>, phase: Phase, cfg: Config, platform: Platform): Run
    decreases |names|
  {
    if names == [] then
      Run(s, [], false)
    else
      var m := MaintainFrom(s, names[0], PhaseSteps(phase), 0, cfg, platform);
      if m.result == MachineKilled then
        Run(m.sys, [], true)
      else if m.result != MachineOk && !cfg.keepGoing then
        Run(m.sys, [Row(names[0], m.result)], false)
      else
        var rest := RunScope(m.sys, names[1..], phase, cfg, platform);
        rest.(rows := [Row(names[0], m.result)] + rest.rows)
  }

  /** The machine loop's body at position `i`. */
  lemma RunUnfolds(s: Sys, names: seq<string>, i: nat, phase: Phase, cfg: Config, platform: Platform)
    requires i < |names|
    ensures var m := MaintainFrom(s, names[i], PhaseSteps(phase), 0, cfg, platform);
      var rest := RunScope(m.sys, names[i + 1..], phase, cfg, platform);
      RunScope(s, names[i..], phase, cfg, platform) ==
        if m.result == MachineKilled then Run(m.sys, [], true)
        else if m.result != MachineOk && !cfg.keepGoing then Run(m.sys, [Row(names[i], m.result)], false)
        else Run(rest.sys, [Row(names[i], m.result)] + rest.rows, rest.killed)
  {
    assert names[i..][0] == names[i] && names[i..][1..] == names[i + 1..];
  }

  /** Exit status 0: the process lived and every row is "ok". */
  ghost predicate ExitsZero(run: Run) {
    !run.killed && forall i :: 0 <= i < |run.rows| ==> run.rows[i].result == MachineOk
  }

  // ---------------------------------------------------------------- classes

  /** The journal object. It is written to disk whole after every record, so a crash loses nothing recorded. */
  class MaintenanceState {
    var machines: Journal

    constructor (found: Journal)
      ensures machines == found
    {
      machines := found;
    }

    predicate HasCompleted(name: string, step: Step)
      reads this
    {
      Completed(machines, name, step)
    }

    method Record(name: string, step: Step, result: LogResult)
      modifies this
      ensures machines == Recorded(old(machines), name, step, result)
    {
      if name !in machines {
        machines := machines[name := Entry([], [])];
      }
      var entry := machines[name];
      if result == LogOk && step !in entry.completed {
        entry := entry.(completed := entry.completed + [step]);
      }
      entry := entry.(log := entry.log + [LogLine(step, result)]);
      machines := machines[name := entry];
    }
  }

  datatype Fetched = Found(machine: Machine) | NotFound

  /** The Network Cloud client and the fleet behind it. */
  class Cloud {
    const platform: Platform
    var fleet: Fleet
    var answer: Response
    var pending: seq<Fleet>
    ghost var trace: seq<Event>

    constructor (platform: Platform, fleet: Fleet)
      ensures this.platform == platform && this.fleet == fleet && trace == []
    {
      this.platform := platform;
      this.fleet := fleet;
      answer := Response(fleet, fleet, Returned, []);
      pending := [];
      trace := [];
    }

    /** An attempt starts: the fleet is what it has become since the driver last looked. */
    method Begin(name: string, step: Step)
      modifies this`fleet, this`answer, this`trace
      ensures answer == platform(old(fleet), name, step) && fleet == answer.found
      ensures trace == old(trace) + [Seen(fleet)]
    {
      answer := platform(fleet, name, step);
      fleet := answer.found;
      trace := trace + [Seen(fleet)];
    }

    /** The call goes out; what the fleet will do next becomes pending. */
    method Call(name: string, step: Step) returns (ending: Ending)
      modifies this`fleet, this`pending, this`trace
      ensures fleet == answer.called && pending == answer.seen && ending == answer.ending
      ensures trace == Noted(old(trace), HasCall(step), Called(step, name, fleet)) + [Seen(fleet)]
    {
      fleet, pending, ending := answer.called, answer.seen, answer.ending;
      trace := Noted(trace, HasCall(step), Called(step, name, fleet)) + [Seen(fleet)];
    }

    /** One poll: time passes, then the machine is read back. */
    method Refresh(name: string) returns (fetched: Fetched)
      requires pending != []
      modifies this`fleet, this`pending, this`trace
      ensures fleet == old(pending[0]) && pending == old(pending[1..])
      ensures trace == old(trace) + [Seen(fleet)]
      ensures fetched == if name in fleet then Found(fleet[name]) else NotFound
    {
      fleet, pending := pending[0], pending[1..];
      trace := trace + [Seen(fleet)];
      fetched := if name in fleet then Found(fleet[name]) else NotFound;
    }

    /** The attempt ended without the driver polling it out; the fleet moves on all the same. */
    ghost method Settle()
      modifies this`trace
      ensures trace == old(trace) + SeenEvents(pending)
    {
      trace := trace + SeenEvents(pending);
    }

    /** The listing API, in whatever order it likes. */
    method ListMachinesApi() returns (listing: seq<Listed>)
      ensures Lists(listing, fleet)
    {
      listing := [];
      var left := fleet.Keys;
      while left != {}
        invariant left <= fleet.Keys
        invariant forall i, j :: 0 <= i < j < |listing| ==> listing[i].name != listing[j].name
        invariant forall i :: 0 <= i < |listing| ==>
          listing[i].name in fleet && listing[i].name !in left && listing[i].machine == fleet[listing[i].name]
        invariant forall n :: n in fleet && n !in left ==> Listed(n, fleet[n]) in listing
        decreases left
      {
        var n :| n in left;
        listing := listing + [Listed(n, fleet[n])];
        left := left - {n};
      }
    }
  }

  /** wait_for: poll until the goal is seen, the machine is gone, or the timeout expires. */
  method WaitFor(nc: Cloud, name: string, step: Step) returns (outcome: Outcome)
    requires step != DoVerify
    modifies nc`fleet, nc`pending, nc`trace
    ensures var o := Polled(step, name, old(nc.fleet), old(nc.pending));
      && outcome == o.outcome
      && nc.fleet == o.fleet
      && nc.trace == old(nc.trace) + SeenEvents(o.passed)
  {
    ghost var whole := Polled(step, name, nc.fleet, nc.pending);
    ghost var passed: seq<Fleet> := [];
    while nc.pending != []
      invariant PollsOn(whole, passed, step, name, nc.fleet, nc.pending)
      invariant nc.trace == old(nc.trace) + SeenEvents(passed)
      decreases |nc.pending|
    {
      OnePollOn(whole, passed, step, name, nc.fleet, nc.pending);
      SeenOneMore(passed, nc.pending[0]);
      var fetched := nc.Refresh(name);
      passed := passed + [nc.fleet];
      if fetched.NotFound? {
        return StepError;
      }
      if Goal(step, fetched.machine) {
        return StepOk;
      }
    }
    return StepFailed;
  }

  /** `whole` is the fleets passed so far and the polling of those still to come. */
  ghost predicate PollsOn(whole: Observation, passed: seq<Fleet>, step: Step, name: string, fleet: Fleet,
                          seen: seq<Fleet>) {
    var rest := Polled(step, name, fleet, seen);
    whole == Observation(rest.outcome, rest.fleet, passed + rest.passed)
  }

  lemma OnePollOn(whole: Observation, passed: seq<Fleet>, step: Step, name: string, fleet: Fleet, seen: seq<Fleet>)
    requires seen != [] && PollsOn(whole, passed, step, name, fleet, seen)
    ensures var now, more := seen[0], passed + [seen[0]];
      if name !in now then whole == Observation(StepError, now, more)
      else if Goal(step, now[name]) then whole == Observation(StepOk, now, more)
      else PollsOn(whole, more, step, name, now, seen[1..])
  {
    var rest := Polled(step, name, seen[0], seen[1..]);
    assert passed + ([seen[0]] + rest.passed) == (passed + [seen[0]]) + rest.passed;
  }

  lemma SeenOneMore(fleets: seq<Fleet>, f: Fleet)
    ensures SeenEvents(fleets + [f]) == SeenEvents(fleets) + [Seen(f)]
  {
  }

  /** do_verify: read the machine once. */
  method Verify(nc: Cloud, name: string) returns (outcome: Outcome)
    requires nc.fleet == nc.answer.found
    ensures outcome == Observed(DoVerify, name, nc.answer).outcome
  {
    if nc.answer.ending == Killed {
      return StepKilled;
    }
    if nc.answer.ending == Raised || name !in nc.fleet {
      return StepError;
    }
    var problems := HealthSummary(nc.fleet[name]);
    return if problems == [] then StepOk else StepFailed;
  }

  lemma SeenFirst(f: Fleet, fleets: seq<Fleet>, trace: seq<Event>)
    ensures trace + SeenEvents([f] + fleets) == (trace + [Seen(f)]) + SeenEvents(fleets)
  {
  }

  /** do_cordon and its like: the call, where there is one, and the polling. */
  method CallAndWait(nc: Cloud, name: string, step: Step) returns (outcome: Outcome)
    requires step != DoVerify
    modifies nc`fleet, nc`pending, nc`trace
    ensures var o := Observed(step, name, nc.answer);
      && outcome == o.outcome
      && nc.fleet == o.fleet
      && nc.trace == Noted(old(nc.trace), HasCall(step), Called(step, name, nc.answer.called)) + SeenEvents(o.passed)
  {
    ghost var before := Noted(nc.trace, HasCall(step), Called(step, name, nc.answer.called));
    var ending := nc.Call(name, step);
    if ending == Returned {
      SeenFirst(nc.fleet, Polled(step, name, nc.fleet, nc.pending).passed, before);
      outcome := WaitFor(nc, name, step);
    } else {
      SeenFirst(nc.fleet, nc.pending, before);
      nc.Settle();
      nc.fleet := LastOf(nc.fleet, nc.pending);
      outcome := if ending == Killed then StepKilled else StepError;
    }
  }

  /** A step, without the gate and the journal. */
  method Perform(nc: Cloud, name: string, step: Step) returns (outcome: Outcome)
    requires nc.fleet == nc.answer.found
    modifies nc`fleet, nc`pending, nc`trace
    ensures var o := Observed(step, name, nc.answer);
      && outcome == o.outcome
      && nc.fleet == o.fleet
      && nc.trace == Noted(old(nc.trace), HasCall(step), Called(step, name, nc.answer.called)) + SeenEvents(o.passed)
  {
    if step == DoVerify {
      outcome := Verify(nc, name);
    } else {
      outcome := CallAndWait(nc, name, step);
    }
  }

  /** The step loop's body: the headroom gate before a power-off, the step, the record. */
  method AttemptStep(nc: Cloud, name: string, step: Step, cfg: Config, state: MaintenanceState)
    returns (outcome: Outcome)
    modifies nc`fleet, nc`answer, nc`pending, nc`trace, state
    ensures StepResult(Sys(nc.fleet, state.machines, nc.trace), outcome)
      == Attempt(old(Sys(nc.fleet, state.machines, nc.trace)), name, step, cfg, nc.platform)
  {
    nc.Begin(name, step);
    if step == DoPowerOff {
      var listing := nc.ListMachinesApi();
      var spare := RackHasHeadroom(listing, nc.fleet, cfg.scope, name, cfg.floor);
      nc.trace := nc.trace + [Checked(name, cfg.scope, cfg.floor, spare, nc.fleet)];
      if !spare {
        if nc.answer.ending == Killed {
          return StepKilled;
        }
        state.Record(name, step, LogBlocked);
        return StepBlocked;
      }
    }
    outcome := Perform(nc, name, step);
    if outcome != StepKilled {
      state.Record(name, step, ResultOf(outcome));
    }
  }

  method MaintainMachine(nc: Cloud, name: string, phase: Phase, cfg: Config, state: MaintenanceState)
    returns (result: MachineResult)
    modifies nc`fleet, nc`answer, nc`pending, nc`trace, state
    ensures MachineRun(Sys(nc.fleet, state.machines, nc.trace), result)
      == MaintainFrom(old(Sys(nc.fleet, state.machines, nc.trace)), name, PhaseSteps(phase), 0, cfg, nc.platform)
  {
    var steps := PhaseSteps(phase);
    ghost var whole := MaintainFrom(Sys(nc.fleet, state.machines, nc.trace), name, steps, 0, cfg, nc.platform);
    for i := 0 to |steps|
      invariant MaintainFrom(Sys(nc.fleet, state.machines, nc.trace), name, steps, i, cfg, nc.platform) == whole
    {
      if state.HasCompleted(name, steps[i]) {
        continue;
      }
      var outcome := AttemptStep(nc, name, steps[i], cfg, state);
      if outcome != StepOk {
        return ResultRow(steps[i], outcome);
      }
    }
    return MachineOk;
  }

  /** The machine loop of the command. */
  method RunMachines(nc: Cloud, names: seq<string>, phase: Phase, cfg: Config, state: MaintenanceState)
    returns (rows: seq<Row>, killed: bool)
    modifies nc`fleet, nc`answer, nc`pending, nc`trace, state
    ensures Run(Sys(nc.fleet, state.machines, nc.trace), rows, killed)
      == RunScope(old(Sys(nc.fleet, state.machines, nc.trace)), names, phase, cfg, nc.platform)
  {
    rows, killed := [], false;
    ghost var whole := RunScope(Sys(nc.fleet, state.machines, nc.trace), names, phase, cfg, nc.platform);
    assert names[0..] == names;
    for i := 0 to |names|
      invariant !killed
      invariant Continues(whole, rows, Sys(nc.fleet, state.machines, nc.trace), names, i, phase, cfg, nc.platform)
    {
      OneMachineOn(whole, rows, Sys(nc.fleet, state.machines, nc.trace), names, i, phase, cfg, nc.platform);
      var result := MaintainMachine(nc, names[i], phase, cfg, state);
      if result == MachineKilled {
        killed := true;
        return;
      }
      rows := rows + [Row(names[i], result)];
      if result != MachineOk && !cfg.keepGoing {
        return;
      }
    }
  }

  /** `whole` is the rows so far and the run of the machines from `i` on. */
  ghost predicate Continues(whole: Run, rows: seq<Row>, s: Sys, names: seq<string>, i: nat, phase: Phase,
                            cfg: Config, platform: Platform) {
    i <= |names| &&
    var rest := RunScope(s, names[i..], phase, cfg, platform);
    whole == Run(rest.sys, rows + rest.rows, rest.killed)
  }

  lemma OneMachineOn(whole: Run, rows: seq<Row>, s: Sys, names: seq<string>, i: nat, phase: Phase, cfg: Config,
                     platform: Platform)
    requires i < |names| && Continues(whole, rows, s, names, i, phase, cfg, platform)
    ensures var m := MaintainFrom(s, names[i], PhaseSteps(phase), 0, cfg, platform);
      var more := rows + [Row(names[i], m.result)];
      if m.result == MachineKilled then whole == Run(m.sys, rows, true)
      else if m.result != MachineOk && !cfg.keepGoing then whole == Run(m.sys, more, false)
      else Continues(whole, more, m.sys, names, i + 1, phase, cfg, platform)
  {
    RunUnfolds(s, names, i, phase, cfg, platform);
    var m := MaintainFrom(s, names[i], PhaseSteps(phase), 0, cfg, platform);
    Regroup(whole, rows, Row(names[i], m.result), RunScope(m.sys, names[i + 1..], phase, cfg, platform));
  }

  lemma Regroup(whole: Run, rows: seq<Row>, row: Row, rest: Run)
    ensures rows + ([row] + rest.rows) == (rows + [row]) + rest.rows
    ensures whole == Run(rest.sys, rows + ([row] + rest.rows), rest.killed)
      <==> whole == Run(rest.sys, (rows + [row]) + rest.rows, rest.killed)
  {
  }

  datatype Exit = Exit(code: int, rows: seq<Row>) | Died

  /** What a dry run reports: the steps each machine would be taken through. */
  function DryRows(names: seq<string>, phase: Phase): seq<Row> {
    seq(|names|, i requires 0 <= i < |names| => Row(names[i], DryRun(PhaseSteps(phase))))
  }

  /** Neither --rack nor --machine bounds the run. */
  predicate Unbounded(scope: Scope) {
    scope.rack == "" && scope.machines == []
  }

  /**
   The command: list the scope, refuse an empty or unbounded one, ask, run, and report. The scope
   worked through is what one listing gave at the start, in rack and slot order.
   */
  method Maintain(nc: Cloud, phase: Phase, cfg: Config, dryRun: bool, confirmed: bool, state: MaintenanceState)
    returns (exit: Exit, ghost names: seq<string>)
    modifies nc`fleet, nc`answer, nc`pending, nc`trace, state
    ensures exists listing :: Lists(listing, old(nc.fleet)) && names == Names(Scoped(listing, cfg.scope))
    ensures names == [] || Unbounded(cfg.scope) || dryRun || !confirmed ==>
      nc.fleet == old(nc.fleet) && state.machines == old(state.machines) && nc.trace == old(nc.trace)
    ensures names == [] || Unbounded(cfg.scope) ==> exit == Exit(2, [])
    ensures names != [] && !Unbounded(cfg.scope) && dryRun ==> exit == Exit(0, DryRows(names, phase))
    ensures names != [] && !Unbounded(cfg.scope) && !dryRun && !confirmed ==> exit == Exit(1, [])
    ensures names != [] && !Unbounded(cfg.scope) && !dryRun && confirmed ==>
      var run := RunScope(old(Sys(nc.fleet, state.machines, nc.trace)), names, phase, cfg, nc.platform);
      && Sys(nc.fleet, state.machines, nc.trace) == run.sys
      && exit == if run.killed then Died else Exit(if ExitsZero(run) then 0 else 1, run.rows)
  {
    var listing := nc.ListMachinesApi();
    var machines := ListMachines(listing, cfg.scope);
    names := Names(machines);
    if machines == [] {
      return Exit(2, []), names;
    }
    if cfg.scope.rack == "" && cfg.scope.machines == [] {
      return Exit(2, []), names;
    }
    if !dryRun && !confirmed {
      return Exit(1, []), names;
    }
    if dryRun {
      return Exit(0, DryRows(Names(machines), phase)), names;
    }
    var rows, killed := RunMachines(nc, Names(machines), phase, cfg, state);
    if killed {
      return Died, names;
    }
    var failed := exists i :: 0 <= i < |rows| && rows[i].result != MachineOk;
    return Exit(if failed then 1 else 0, rows), names;
  }
}
