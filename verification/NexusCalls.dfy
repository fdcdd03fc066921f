/** Which calls the driver makes, one by one, and what it has seen when it reports a step as done. */
module NexusCalls {
  import opened Ordering
  import opened NexusFleet
  import opened NexusDriver
  import opened NexusJournal

  // --------------------------------------------------------------- attempts

  /**
   The events an attempt adds. Cordon, power-on and uncordon make their call at once; a power-off is
   checked first, and the call comes directly after a passed check and never after a failed one;
   waiting and verifying call nothing.
   */
  lemma AttemptEvents(s: Sys, name: string, step: Step, cfg: Config, platform: Platform)
    ensures var a := Attempt(s, name, step, cfg, platform);
      var r := platform(s.fleet, name, step);
      var trace, after := a.sys.trace, SeenEvents(Observed(step, name, r).passed);
      var spare := Headroom(r.found, cfg.scope, name, cfg.floor);
      && (step == DoCordon ==> trace == s.trace + [Seen(r.found), Called(DoCordon, name, r.called)] + after)
      && (step == DoPowerOn ==> trace == s.trace + [Seen(r.found), Called(DoPowerOn, name, r.called)] + after)
      && (step == DoUncordon ==> trace == s.trace + [Seen(r.found), Called(DoUncordon, name, r.called)] + after)
      && (step == DoPowerOff && spare ==>
            trace == s.trace + [Seen(r.found), Checked(name, cfg.scope, cfg.floor, true, r.found),
                                Called(DoPowerOff, name, r.called)] + after)
      && (step == DoPowerOff && !spare ==>
            && trace == s.trace + [Seen(r.found), Checked(name, cfg.scope, cfg.floor, false, r.found)]
            && (a.outcome == StepBlocked || a.outcome == StepKilled))
      && (step == DoWaitReady || step == DoVerify ==> trace == s.trace + [Seen(r.found)] + after)
  {
    var r := platform(s.fleet, name, step);
    var check := Checked(name, cfg.scope, cfg.floor, true, r.found);
    assert s.trace + [Seen(r.found)] + [check] + [Called(step, name, r.called)] ==
      s.trace + [Seen(r.found), check, Called(step, name, r.called)];
    assert s.trace + [Seen(r.found)] + [Called(step, name, r.called)] ==
      s.trace + [Seen(r.found), Called(step, name, r.called)];
  }

  // ------------------------------------------------------------------- rows

  lemma {:induction false} PollNeverBlocks(step: Step, name: string, fleet: Fleet, seen: seq<Fleet>)
    ensures var o := Polled(step, name, fleet, seen).outcome;
      o == StepOk || o == StepFailed || o == StepError
    decreases |seen|
  {
    if seen != [] {
      PollNeverBlocks(step, name, seen[0], seen[1..]);
    }
  }

  /** The last line of the machine's log. */
  predicate LastLogged(journal: Journal, name: string, step: Step, result: LogResult) {
    name in journal && journal[name].log != [] && journal[name].log[|journal[name].log| - 1] == LogLine(step, result)
  }

  lemma AttemptLast(s: Sys, name: string, step: Step, cfg: Config, platform: Platform)
    ensures var a := Attempt(s, name, step, cfg, platform);
      && (a.outcome == StepFailed ==> LastLogged(a.sys.journal, name, step, LogFailed))
      && (a.outcome == StepError ==> LastLogged(a.sys.journal, name, step, LogError))
      && (a.outcome == StepBlocked ==> step == DoPowerOff && LastLogged(a.sys.journal, name, step, LogBlocked))
  {
    var r := platform(s.fleet, name, step);
    PollNeverBlocks(step, name, r.called, r.seen);
  }

  lemma {:induction false} WalkRow(s: Sys, name: string, steps: seq<Step>, i: nat, cfg: Config, platform: Platform)
    requires i <= |steps|
    ensures var m := MaintainFrom(s, name, steps, i, cfg, platform);
      && !m.result.DryRun?
      && (m.result == BlockedNoHeadroom ==> LastLogged(m.sys.journal, name, DoPowerOff, LogBlocked))
      && (m.result.FailedAt? ==>
            && m.result.step in steps
            && (LastLogged(m.sys.journal, name, m.result.step, LogFailed)
                || LastLogged(m.sys.journal, name, m.result.step, LogError)))
    decreases |steps| - i
  {
    if i < |steps| {
      if Completed(s.journal, name, steps[i]) {
        WalkRow(s, name, steps, i + 1, cfg, platform);
      } else {
        AttemptLast(s, name, steps[i], cfg, platform);
        WalkRow(Attempt(s, name, steps[i], cfg, platform).sys, name, steps, i + 1, cfg, platform);
      }
    }
  }

  /**
   The row reported for a machine and the end of its log tell the same: "ok" when every step of the phase is
   recorded, otherwise the step logged last, as failed or in error, or the power-off the check stopped.
   */
  lemma RowMatchesLog(s: Sys, name: string, phase: Phase, cfg: Config, platform: Platform)
    ensures var m := MaintainFrom(s, name, PhaseSteps(phase), 0, cfg, platform);
      match m.result
      case MachineOk => forall step :: step in PhaseSteps(phase) ==> Completed(m.sys.journal, name, step)
      case FailedAt(step) =>
        && step in PhaseSteps(phase)
        && (LastLogged(m.sys.journal, name, step, LogFailed) || LastLogged(m.sys.journal, name, step, LogError))
      case BlockedNoHeadroom => LastLogged(m.sys.journal, name, DoPowerOff, LogBlocked)
      case MachineKilled => true
      case DryRun(_) => false
  {
    WalkRow(s, name, PhaseSteps(phase), 0, cfg, platform);
    var always := (t: Sys) => true;
    assert KeptBy(always, [name], phase, cfg, platform);
    MaintainKeeps(always, s, name, phase, 0, cfg, platform);
  }

  // -------------------------------------------------------------- histories

  ghost function IsCall(step: Step, name: string): Event -> bool {
    (e: Event) => e.Called? && e.step == step && e.target == name
  }

  /** The calls of one kind made for one machine. */
  ghost function CallsMade(trace: seq<Event>, step: Step, name: string): nat {
    |Filter(trace, IsCall(step, name))|
  }

  ghost function IsTry(step: Step): LogLine -> bool {
    (line: LogLine) => line.step == step && line.result != LogBlocked
  }

  /** The attempts at a step the log tells of, those stopped by the headroom check left out. */
  ghost function TriesLogged(journal: Journal, step: Step, name: string): nat {
    if name in journal then |Filter(journal[name].log, IsTry(step))| else 0
  }

  ghost function Unlogged(s: Sys, step: Step, name: string): int {
    CallsMade(s.trace, step, name) - TriesLogged(s.journal, step, name)
  }

  lemma {:induction false} SeenIsNoCall(fleets: seq<Fleet>, step: Step, name: string)
    ensures Filter(SeenEvents(fleets), IsCall(step, name)) == []
  {
    if fleets != [] {
      SeenIsNoCall(fleets[1..], step, name);
      assert SeenEvents(fleets)[1..] == SeenEvents(fleets[1..]);
    }
  }

  /** A step's call: one more of its kind, for its machine, and no other. */
  lemma FilterOfEvents(before: seq<Event>, made: seq<Event>, after: seq<Fleet>, step: Step, name: string)
    requires made != [] && forall i :: 0 <= i < |made| - 1 ==> !made[i].Called?
    ensures CallsMade(before + made + SeenEvents(after), step, name) == CallsMade(before, step, name) +
      if IsCall(step, name)(made[|made| - 1]) then 1 else 0
  {
    var p := IsCall(step, name);
    FilterAppend(before + made, SeenEvents(after), p);
    FilterAppend(before, made, p);
    SeenIsNoCall(after, step, name);
    LastOnly(made, p);
  }

  lemma {:induction false} LastOnly<T>(xs: seq<T>, p: T -> bool)
    requires forall i :: 0 <= i < |xs| - 1 ==> !p(xs[i])
    ensures Filter(xs, p) == if xs != [] && p(xs[|xs| - 1]) then [xs[|xs| - 1]] else []
  {
    if |xs| > 1 {
      LastOnly(xs[1..], p);
    } else if |xs| == 1 {
      FilterOne(xs[0], p);
    }
  }

  /** An attempt's own events, of which at most the last is a call, and the fleets seen after them. */
  lemma AttemptMakes(s: Sys, name: string, step: Step, cfg: Config, platform: Platform)
    returns (made: seq<Event>, after: seq<Fleet>)
    ensures Attempt(s, name, step, cfg, platform).sys.trace == s.trace + made + SeenEvents(after)
    ensures made != [] && forall i :: 0 <= i < |made| - 1 ==> !made[i].Called?
    ensures var r := platform(s.fleet, name, step);
      var spare := Headroom(r.found, cfg.scope, name, cfg.floor);
      if step == DoWaitReady || step == DoVerify || (step == DoPowerOff && !spare)
      then !made[|made| - 1].Called?
      else made[|made| - 1] == Called(step, name, r.called)
  {
    var r := platform(s.fleet, name, step);
    var spare := Headroom(r.found, cfg.scope, name, cfg.floor);
    AttemptEvents(s, name, step, cfg, platform);
    after := if step == DoPowerOff && !spare then [] else Observed(step, name, r).passed;
    made :=
      if step == DoPowerOff && !spare then [Seen(r.found), Checked(name, cfg.scope, cfg.floor, false, r.found)]
      else if step == DoPowerOff then
        [Seen(r.found), Checked(name, cfg.scope, cfg.floor, true, r.found), Called(step, name, r.called)]
      else if step == DoWaitReady || step == DoVerify then [Seen(r.found)]
      else [Seen(r.found), Called(step, name, r.called)];
  }

  lemma AttemptCalls(s: Sys, n: string, st: Step, cfg: Config, platform: Platform, step: Step, name: string)
    requires step == DoCordon || step == DoPowerOff || step == DoPowerOn || step == DoUncordon
    ensures var a := Attempt(s, n, st, cfg, platform);
      var spare := Headroom(platform(s.fleet, n, st).found, cfg.scope, n, cfg.floor);
      CallsMade(a.sys.trace, step, name) == CallsMade(s.trace, step, name) +
        if (n, st) == (name, step) && (step == DoPowerOff ==> spare) then 1 else 0
  {
    var made, after := AttemptMakes(s, n, st, cfg, platform);
    FilterOfEvents(s.trace, made, after, step, name);
  }

  lemma LineTried(log: seq<LogLine>, line: LogLine, step: Step)
    ensures |Filter(log + [line], IsTry(step))| == |Filter(log, IsTry(step))| + if IsTry(step)(line) then 1 else 0
  {
    FilterAppend(log, [line], IsTry(step));
    FilterOne(line, IsTry(step));
  }

  lemma RecordTries(journal: Journal, n: string, st: Step, result: LogResult, step: Step, name: string)
    ensures TriesLogged(Recorded(journal, n, st, result), step, name) == TriesLogged(journal, step, name) +
      if (n, st) == (name, step) && result != LogBlocked then 1 else 0
  {
    LineTried(if n in journal then journal[n].log else [], LogLine(st, result), step);
  }

  lemma AttemptTries(s: Sys, n: string, st: Step, cfg: Config, platform: Platform, step: Step, name: string)
    ensures var a := Attempt(s, n, st, cfg, platform);
      TriesLogged(a.sys.journal, step, name) == TriesLogged(s.journal, step, name) +
        if (n, st) == (name, step) && a.outcome != StepBlocked && a.outcome != StepKilled then 1 else 0
  {
    var a := Attempt(s, n, st, cfg, platform);
    if a.outcome != StepKilled {
      RecordTries(s.journal, n, st, ResultOf(a.outcome), step, name);
    }
  }

  /** Only a process that is killed makes a call it does not log. */
  lemma AttemptLogged(s: Sys, n: string, st: Step, cfg: Config, platform: Platform, step: Step, name: string)
    requires step == DoCordon || step == DoPowerOff || step == DoPowerOn || step == DoUncordon
    ensures var a := Attempt(s, n, st, cfg, platform);
      Unlogged(s, step, name) <= Unlogged(a.sys, step, name) <=
        Unlogged(s, step, name) + if a.outcome == StepKilled then 1 else 0
  {
    AttemptCalls(s, n, st, cfg, platform, step, name);
    AttemptTries(s, n, st, cfg, platform, step, name);
    AttemptEvents(s, n, st, cfg, platform);
    var r := platform(s.fleet, n, st);
    PollNeverBlocks(st, n, r.called, r.seen);
  }

  lemma {:induction false} WalkLogged(s: Sys, n: string, steps: seq<Step>, i: nat, cfg: Config, platform: Platform,
                                      step: Step, name: string)
    requires step == DoCordon || step == DoPowerOff || step == DoPowerOn || step == DoUncordon
    requires i <= |steps|
    ensures var m := MaintainFrom(s, n, steps, i, cfg, platform);
      Unlogged(s, step, name) <= Unlogged(m.sys, step, name) <=
        Unlogged(s, step, name) + if m.result == MachineKilled then 1 else 0
    decreases |steps| - i
  {
    if i < |steps| {
      if Completed(s.journal, n, steps[i]) {
        WalkLogged(s, n, steps, i + 1, cfg, platform, step, name);
      } else {
        var a := Attempt(s, n, steps[i], cfg, platform);
        AttemptLogged(s, n, steps[i], cfg, platform, step, name);
        if a.outcome == StepOk {
          WalkLogged(a.sys, n, steps, i + 1, cfg, platform, step, name);
        }
      }
    }
  }

  lemma {:induction false} RunLogged(s: Sys, names: seq<string>, phase: Phase, cfg: Config, platform: Platform,
                                     step: Step, name: string)
    requires step == DoCordon || step == DoPowerOff || step == DoPowerOn || step == DoUncordon
    ensures var run := RunScope(s, names, phase, cfg, platform);
      Unlogged(s, step, name) <= Unlogged(run.sys, step, name) <=
        Unlogged(s, step, name) + if run.killed then 1 else 0
    decreases |names|
  {
    if names != [] {
      var m := MaintainFrom(s, names[0], PhaseSteps(phase), 0, cfg, platform);
      WalkLogged(s, names[0], PhaseSteps(phase), 0, cfg, platform, step, name);
      if m.result != MachineKilled && (m.result == MachineOk || cfg.keepGoing) {
        RunLogged(m.sys, names[1..], phase, cfg, platform, step, name);
      }
    }
  }

  /** The runs of a history that were killed. */
  ghost function Kills(s: Sys, items: seq<Item>): nat
    decreases |items|
  {
    if items == [] then 0
    else
      var now := match items[0]
        case RunOf(names, phase, cfg, platform) =>
          if RunScope(s, names, phase, cfg, platform).killed then 1 else 0
        case Drift(_) => 0;
      now + Kills(PlayItem(s, items[0]), items[1..])
  }

  /**
   The log accounts for the calls. Over any history, every cordon, power-off, power-on or uncordon the log
   says was tried had its call, and no call went out twice or unlogged but for one in each run that was killed.
   */
  lemma {:induction false} CallsMatchLog(s: Sys, items: seq<Item>, step: Step, name: string)
    requires step == DoCordon || step == DoPowerOff || step == DoPowerOn || step == DoUncordon
    ensures var end := Play(s, items);
      var calls := CallsMade(end.trace, step, name) - CallsMade(s.trace, step, name);
      var tries := TriesLogged(end.journal, step, name) - TriesLogged(s.journal, step, name);
      tries <= calls <= tries + Kills(s, items)
    decreases |items|
  {
    if items != [] {
      if items[0].RunOf? {
        var RunOf(names, phase, cfg, platform) := items[0];
        RunLogged(s, names, phase, cfg, platform, step, name);
      }
      CallsMatchLog(PlayItem(s, items[0]), items[1..], step, name);
    }
  }

  /** So from a fresh journal a step listed as completed was called. */
  lemma CompletedWasCalled(s: Sys, items: seq<Item>, step: Step, name: string) returns (i: nat)
    requires step == DoCordon || step == DoPowerOff || step == DoPowerOn || step == DoUncordon
    requires s.trace == [] && s.journal == map[] && Completed(Play(s, items).journal, name, step)
    ensures i < |Play(s, items).trace|
    ensures Play(s, items).trace[i] == Called(step, name, Play(s, items).trace[i].fleet)
  {
    var end := Play(s, items);
    LogTellsAll(s, items);
    CallsMatchLog(s, items, step, name);
    FilterElements(end.journal[name].log, IsTry(step));
    assert LogLine(step, LogOk) in Filter(end.journal[name].log, IsTry(step));
    FilterElements(end.trace, IsCall(step, name));
    var call := Filter(end.trace, IsCall(step, name))[0];
    assert call in end.trace;
    i :| 0 <= i < |end.trace| && end.trace[i] == call;
  }

  /**
   Every machine listed as powered off was switched off after a check, directly before, that saw the
   floor held among the other machines of its rack.
   */
  lemma PoweredOffWasSpared(s: Sys, items: seq<Item>, name: string)
    requires s.trace == [] && s.journal == map[] && Completed(Play(s, items).journal, name, DoPowerOff)
    ensures var trace := Play(s, items).trace;
      exists i :: 0 < i < |trace| && trace[i] == Called(DoPowerOff, name, trace[i].fleet)
        && trace[i - 1].Checked? && trace[i - 1].target == name && name in trace[i - 1].fleet
        && |HealthyOthers(trace[i - 1].fleet, EVERYTHING, name)| >= trace[i - 1].floor
  {
    var i := CompletedWasCalled(s, items, DoPowerOff, name);
    PowerOffsAreSpared(s, items, i);
  }

  // ------------------------------------------------------------------ goals

  /** While polling, the machine shows what is asked for before it is ever missing. */
  ghost predicate Shows(seen: seq<Fleet>, name: string, met: Machine -> bool) {
    exists i :: 0 <= i < |seen| && (forall j :: 0 <= j <= i ==> name in seen[j]) && met(seen[i][name])
  }

  lemma ShowsLater(seen: seq<Fleet>, name: string, met: Machine -> bool)
    requires seen != [] && name in seen[0] && !met(seen[0][name])
    ensures Shows(seen, name, met) <==> Shows(seen[1..], name, met)
  {
    var rest := seen[1..];
    assert forall j :: 0 <= j < |rest| ==> rest[j] == seen[j + 1];
    if Shows(rest, name, met) {
      var i :| 0 <= i < |rest| && (forall j :: 0 <= j <= i ==> name in rest[j]) && met(rest[i][name]);
      forall j | 0 <= j <= i + 1 ensures name in seen[j] {
        assert j > 0 ==> name in rest[j - 1];
      }
      assert met(seen[i + 1][name]);
    }
    if Shows(seen, name, met) {
      var i :| 0 <= i < |seen| && (forall j :: 0 <= j <= i ==> name in seen[j]) && met(seen[i][name]);
      assert met(rest[i - 1][name]);
    }
  }

  lemma {:induction false} PolledShows(step: Step, name: string, fleet: Fleet, seen: seq<Fleet>, met: Machine -> bool)
    requires forall m :: met(m) <==> Goal(step, m)
    ensures Polled(step, name, fleet, seen).outcome == StepOk <==> Shows(seen, name, met)
    ensures Polled(step, name, fleet, seen).outcome == StepFailed <==>
      forall i :: 0 <= i < |seen| ==> name in seen[i] && !met(seen[i][name])
    decreases |seen|
  {
    if seen != [] && name in seen[0] && !met(seen[0][name]) {
      PolledShows(step, name, seen[0], seen[1..], met);
      ShowsLater(seen, name, met);
      assert forall i :: 0 < i < |seen| ==> seen[i] == seen[1..][i - 1];
    }
  }

  /** What has to be seen, in the machine's own fields, for each step's poll to succeed. */
  lemma PollsFor(name: string, fleet: Fleet, seen: seq<Fleet>)
    ensures Polled(DoCordon, name, fleet, seen).outcome == StepOk <==>
      Shows(seen, name, (m: Machine) => m.cordon.Cordoned?)
    ensures Polled(DoPowerOff, name, fleet, seen).outcome == StepOk <==>
      Shows(seen, name, (m: Machine) => m.power.Off?)
    ensures Polled(DoPowerOn, name, fleet, seen).outcome == StepOk <==>
      Shows(seen, name, (m: Machine) => m.power.On?)
    ensures Polled(DoWaitReady, name, fleet, seen).outcome == StepOk <==>
      Shows(seen, name, (m: Machine) => m.ready && !m.detailed.OtherStatus?)
    ensures Polled(DoUncordon, name, fleet, seen).outcome == StepOk <==>
      Shows(seen, name, (m: Machine) => !m.cordon.Cordoned? && !m.cordon.OtherCordon?)
  {
    PolledShows(DoCordon, name, fleet, seen, (m: Machine) => m.cordon.Cordoned?);
    PolledShows(DoPowerOff, name, fleet, seen, (m: Machine) => m.power.Off?);
    PolledShows(DoPowerOn, name, fleet, seen, (m: Machine) => m.power.On?);
    PolledShows(DoWaitReady, name, fleet, seen, (m: Machine) => m.ready && !m.detailed.OtherStatus?);
    PolledShows(DoUncordon, name, fleet, seen, (m: Machine) => !m.cordon.Cordoned? && !m.cordon.OtherCordon?);
  }

  lemma {:induction false} PollReaches(step: Step, name: string, fleet: Fleet, seen: seq<Fleet>)
    ensures var o := Polled(step, name, fleet, seen);
      o.outcome == StepOk ==> name in o.fleet && Goal(step, o.fleet[name])
    decreases |seen|
  {
    if seen != [] && name in seen[0] && !Goal(step, seen[0][name]) {
      PollReaches(step, name, seen[0], seen[1..]);
    }
  }

  /** What a step that ends "ok" leaves behind, field by field. */
  lemma OkLeaves(s: Sys, name: string, step: Step, cfg: Config, platform: Platform)
    requires Attempt(s, name, step, cfg, platform).outcome == StepOk
    ensures name in Attempt(s, name, step, cfg, platform).sys.fleet
    ensures var m := Attempt(s, name, step, cfg, platform).sys.fleet[name];
      match step
      case DoCordon => m.cordon.Cordoned?
      case DoPowerOff => m.power.Off?
      case DoPowerOn => m.power.On?
      case DoWaitReady => m.ready && !m.detailed.OtherStatus?
      case DoUncordon => !m.cordon.Cordoned? && !m.cordon.OtherCordon?
      case DoVerify =>
        && m.ready && !m.detailed.OtherStatus? && m.power.On?
        && !m.cordon.Cordoned? && !m.cordon.OtherCordon? && !m.hardware.OtherResult?
  {
    var r := platform(s.fleet, name, step);
    PollReaches(step, name, r.called, r.seen);
  }

  /** A healthy machine passes every step of a restore: none of them waits for more than verifying asks. */
  lemma HealthyPassesRestore(m: Machine, step: Step)
    requires Healthy(m) && step in RESTORE
    ensures Goal(step, m)
  {
  }
}
