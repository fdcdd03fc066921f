/**
 Runs whose calls all succeed: a full run gets through, a shutdown run takes down exactly what
 the floor allows, and a second cycle under one journal does not happen.
 */
module NexusSuccess {
  import opened Ordering
  import opened NexusFleet
  import opened NexusDriver
  import opened NexusJournal
  import opened NexusQuiet
  import opened NexusObedient

  /** A machine stays in its rack and its cluster. */
  predicate Placed(before: Machine, after: Machine) {
    before.rackId == after.rackId && before.clusterId == after.clusterId
  }

  ghost predicate AllPlaced(before: Fleet, seen: seq<Fleet>, name: string)
    requires name in before
  {
    forall i :: 0 <= i < |seen| ==> name in seen[i] && Placed(before[name], seen[i][name])
  }

  /**
   Every call returns, nothing moves before it, and before the polling gives up the machine is seen
   at the step's goal. When readiness, status and hardware results change is left open.
   */
  ghost predicate Succeeds(platform: Platform) {
    && Quiet(platform)
    && Obedient(platform)
    && forall f: Fleet, n: string, step {:trigger Works(f, n, step, platform(f, n, step))} ::
         n in f ==> Works(f, n, step, platform(f, n, step))
  }

  ghost predicate Works(f: Fleet, name: string, step: Step, r: Response)
    requires name in f
  {
    && r.ending == Returned
    && Spots(r.found) == Spots(f)
    && AllPlaced(f, Fleets(r), name)
    && (step != DoVerify ==> r.seen != [] && AtLast(step, name, r.seen[|r.seen| - 1]))
  }

  ghost predicate AtLast(step: Step, name: string, f: Fleet) {
    name in f && Goal(step, f[name])
  }

  lemma {:induction false} PolledSucceeds(step: Step, name: string, fleet: Fleet, seen: seq<Fleet>)
    requires seen != [] && forall i :: 0 <= i < |seen| ==> name in seen[i]
    requires AtLast(step, name, seen[|seen| - 1])
    ensures Polled(step, name, fleet, seen).outcome == StepOk
    decreases |seen|
  {
    if !Goal(step, seen[0][name]) {
      assert |seen| > 1;
      PolledSucceeds(step, name, seen[0], seen[1..]);
    }
  }

  /** When an attempt starts, its machine is where it was and so are its neighbours. */
  lemma FoundAlike(f: Fleet, name: string, step: Step, cfg: Config, platform: Platform)
    requires Succeeds(platform) && name in f
    ensures platform(f, name, step).ending == Returned
    ensures var found := platform(f, name, step).found;
      && OnlyTouches(f, found, name) && Placed(f[name], found[name]) && SpotOf(found[name]) == SpotOf(f[name])
      && (Headroom(found, cfg.scope, name, cfg.floor) <==> Headroom(f, cfg.scope, name, cfg.floor))
  {
    var r := platform(f, name, step);
    assert Works(f, name, step, r);
    ObservedQuiet(step, name, f, r);
    assert Fleets(r)[0] == r.found;
    assert Spots(r.found)[name] == Spots(f)[name];
    assert HealthyOthers(r.found, cfg.scope, name) == HealthyOthers(f, cfg.scope, name);
  }

  lemma WorksThroughout(f: Fleet, name: string, step: Step, r: Response)
    requires name in f && Works(f, name, step, r)
    ensures name in r.found && Placed(f[name], r.found[name])
    ensures forall g :: g in r.seen ==> name in g && Placed(f[name], g[name])
  {
    assert Fleets(r)[0] == r.found;
    forall g | g in r.seen ensures name in g && Placed(f[name], g[name]) {
      var i :| 0 <= i < |r.seen| && r.seen[i] == g;
      assert Fleets(r)[i + 2] == g;
    }
  }

  lemma ObservedSucceeds(f: Fleet, name: string, step: Step, r: Response)
    requires name in f && Works(f, name, step, r)
    requires step == DoVerify ==> name in r.found && Healthy(r.found[name])
    ensures var o := Observed(step, name, r);
      o.outcome == StepOk && name in o.fleet && Placed(f[name], o.fleet[name])
  {
    WorksThroughout(f, name, step, r);
    if step != DoVerify {
      PolledSucceeds(step, name, r.called, r.seen);
      PolledIsSeen(step, name, r.called, r.seen);
    }
  }

  /** A step with headroom, where it is needed, reaches its goal. */
  lemma AttemptSucceeds(s: Sys, name: string, step: Step, cfg: Config, platform: Platform)
    requires Succeeds(platform) && name in s.fleet
    requires step == DoPowerOff ==> Headroom(s.fleet, cfg.scope, name, cfg.floor)
    requires step == DoVerify ==>
      var found := platform(s.fleet, name, step).found; name in found && Healthy(found[name])
    ensures var a := Attempt(s, name, step, cfg, platform);
      && a.outcome == StepOk
      && OnlyTouches(s.fleet, a.sys.fleet, name)
      && Goal(step, a.sys.fleet[name])
      && Placed(s.fleet[name], a.sys.fleet[name])
      && SpotOf(a.sys.fleet[name]) == Moved(step, SpotOf(s.fleet[name]))
  {
    var a := Attempt(s, name, step, cfg, platform);
    assert Works(s.fleet, name, step, platform(s.fleet, name, step));
    FoundAlike(s.fleet, name, step, cfg, platform);
    ObservedSucceeds(s.fleet, name, step, platform(s.fleet, name, step));
    AttemptQuiet(s, name, step, cfg, platform);
    AttemptObedient(s, name, step, cfg, platform);
    assert Spots(a.sys.fleet)[name] == SpotOf(a.sys.fleet[name]);
  }

  /** Polling that succeeds ends on a fleet it saw. */
  lemma {:induction false} PolledIsSeen(step: Step, name: string, fleet: Fleet, seen: seq<Fleet>)
    requires Polled(step, name, fleet, seen).outcome == StepOk
    ensures Polled(step, name, fleet, seen).fleet in seen
    decreases |seen|
  {
    if seen != [] && name in seen[0] && !Goal(step, seen[0][name]) {
      PolledIsSeen(step, name, seen[0], seen[1..]);
    }
  }

  // --------------------------------------------------------------- shutdown

  /** How many machines the floor lets go. */
  function Allowance(names: seq<string>, floor: nat): nat {
    if |names| > floor then |names| - floor else 0
  }

  /** One rack of healthy machines, each named once: exactly the machines in scope. */
  ghost predicate HealthyRack(start: Fleet, names: seq<string>, scope: Scope, rack: string) {
    && Distinct(names)
    && (forall n :: n in names <==> n in start && InScope(n, start[n], scope))
    && (forall n :: n in names ==> RackName(start[n]) == rack && Healthy(start[n]))
  }

  ghost function Tail(names: seq<string>, k: nat): set<string>
    requires k <= |names|
  {
    set n | n in names[k..]
  }

  lemma TailSize(names: seq<string>, k: nat)
    requires Distinct(names) && k <= |names|
    ensures |Tail(names, k)| == |names| - k
  {
    DistinctSize(names[k..]);
  }

  lemma NotYetDown(names: seq<string>, k: nat, n: string)
    requires Distinct(names) && k < |names|
    ensures n in names[k..] ==> n !in names[..k]
    ensures n in names ==> n in names[..k] || n == names[k] || n in names[k + 1..]
  {
    if n in names {
      var i :| 0 <= i < |names| && names[i] == n;
      assert i < k ==> names[..k][i] == n;
      assert i > k ==> names[k + 1..][i - k - 1] == n;
    }
  }

  /** The first `k` of `names` are off; nothing else differs from the start. */
  ghost predicate DownTo(f: Fleet, start: Fleet, names: seq<string>, k: nat)
    requires k <= |names|
  {
    && f.Keys == start.Keys
    && (forall n :: n in names[..k] ==> n in f && f[n].power == Off)
    && (forall n :: n in start && n !in names[..k] ==> f[n] == start[n])
  }

  /** The first `k` are off and the next one is cordoned but on; nothing else differs from the start. */
  ghost predicate NextCordoned(f: Fleet, start: Fleet, names: seq<string>, k: nat)
    requires k < |names|
  {
    && f.Keys == start.Keys
    && (forall n :: n in names[..k] ==> n in f && f[n].power == Off)
    && names[k] in f && SpotOf(f[names[k]]) == Spot(On, Cordoned) && Placed(start[names[k]], f[names[k]])
    && (forall n :: n in start && n !in names[..k] && n != names[k] ==> f[n] == start[n])
  }

  /** With `k` down and the next one cordoned, the healthy neighbours are those still to come. */
  lemma NeighboursLeft(f: Fleet, start: Fleet, names: seq<string>, scope: Scope, rack: string, k: nat)
    requires HealthyRack(start, names, scope, rack) && k < |names| && NextCordoned(f, start, names, k)
    ensures InScope(names[k], f[names[k]], scope)
    ensures HealthyOthers(f, scope, names[k]) == Tail(names, k + 1)
    ensures |HealthyOthers(f, scope, names[k])| == |names| - k - 1
  {
    assert names[k] in names;
    forall n ensures n in HealthyOthers(f, scope, names[k]) <==> n in Tail(names, k + 1) {
      NotYetDown(names, k, n);
      if n in names[k + 1..] {
        var j :| 0 <= j < |names| - k - 1 && names[k + 1..][j] == n;
        assert names[k..][j + 1] == n && n == names[k + 1 + j] && n != names[k];
        assert n in names && f[n] == start[n];
      }
    }
    TailSize(names, k + 1);
  }

  /** `f` has not touched the machines from position `k` on. */
  ghost predicate Spared(f: Fleet, start: Fleet, names: seq<string>, k: nat)
    requires k <= |names|
  {
    forall n :: n in names[k..] ==> n in f && n in start && f[n] == start[n]
  }

  ghost predicate SparedSince(before: Sys, after: Sys, start: Fleet, names: seq<string>, k: nat)
    requires k <= |names|
  {
    && before.trace <= after.trace
    && forall i :: |before.trace| <= i < |after.trace| ==> Spared(after.trace[i].fleet, start, names, k)
  }

  ghost predicate OthersSame(before: Journal, after: Journal, name: string) {
    forall n :: n != name ==> CompletedSteps(after, n) == CompletedSteps(before, n)
  }

  lemma AttemptSpares(s: Sys, start: Fleet, names: seq<string>, k: nat, step: Step, cfg: Config, platform: Platform)
    requires Quiet(platform) && Distinct(names) && k < |names|
    requires Spared(s.fleet, start, names, k + 1)
    ensures var t := Attempt(s, names[k], step, cfg, platform).sys;
      SparedSince(s, t, start, names, k + 1) && OthersSame(s.journal, t.journal, names[k])
  {
    var name := names[k];
    AttemptQuiet(s, name, step, cfg, platform);
    AttemptRecords(s, name, step, cfg, platform);
    assert name !in names[k + 1..];
    var t := Attempt(s, name, step, cfg, platform).sys;
    forall i | |s.trace| <= i < |t.trace| ensures Spared(t.trace[i].fleet, start, names, k + 1) {
      assert OnlyTouches(s.fleet, t.trace[i].fleet, name);
    }
  }

  lemma TailSpared(f: Fleet, start: Fleet, names: seq<string>, k: nat, scope: Scope, rack: string)
    requires HealthyRack(start, names, scope, rack) && k < |names|
    requires DownTo(f, start, names, k) || NextCordoned(f, start, names, k)
    ensures names[k] in start && names[k] !in names[..k]
    ensures Spared(f, start, names, k + 1)
  {
    assert names[k] in names;
    forall n | n in names[k + 1..] ensures n in start && n !in names[..k] && n != names[k] {
      assert names[k..] == [names[k]] + names[k + 1..];
      NotYetDown(names, k, n);
      assert n in names;
      var j :| 0 <= j < |names| - k - 1 && names[k + 1..][j] == n;
      assert names[k + 1 + j] == n;
    }
  }

  lemma CordonNext(s: Sys, start: Fleet, names: seq<string>, k: nat, cfg: Config, platform: Platform, rack: string)
    requires HealthyRack(start, names, cfg.scope, rack) && Succeeds(platform)
    requires k < |names| && DownTo(s.fleet, start, names, k) && CompletedSteps(s.journal, names[k]) == []
    ensures var a := Attempt(s, names[k], DoCordon, cfg, platform);
      a.outcome == StepOk && StoppedAt(s, a.sys, start, names, k)
  {
    assert names[k] in names;
    TailSpared(s.fleet, start, names, k, cfg.scope, rack);
    AttemptSucceeds(s, names[k], DoCordon, cfg, platform);
    AttemptSpares(s, start, names, k, DoCordon, cfg, platform);
    AttemptRecords(s, names[k], DoCordon, cfg, platform);
  }

  /** From `s` to `t` the machine at `k` has gone down and nothing further on was touched. */
  ghost predicate WentDown(s: Sys, t: Sys, start: Fleet, names: seq<string>, k: nat)
    requires k < |names|
  {
    && SparedSince(s, t, start, names, k + 1) && OthersSame(s.journal, t.journal, names[k])
    && DownTo(t.fleet, start, names, k + 1) && CompletedSteps(t.journal, names[k]) == SHUTDOWN
  }

  /** From `s` to `t` the machine at `k` was cordoned and no more. */
  ghost predicate StoppedAt(s: Sys, t: Sys, start: Fleet, names: seq<string>, k: nat)
    requires k < |names|
  {
    && SparedSince(s, t, start, names, k + 1) && OthersSame(s.journal, t.journal, names[k])
    && NextCordoned(t.fleet, start, names, k) && CompletedSteps(t.journal, names[k]) == [DoCordon]
  }

  lemma AfterStop(s: Sys, c: Sys, t: Sys, start: Fleet, names: seq<string>, k: nat)
    requires k < |names| && StoppedAt(s, c, start, names, k)
    ensures WentDown(c, t, start, names, k) ==> WentDown(s, t, start, names, k)
    ensures StoppedAt(c, t, start, names, k) ==> StoppedAt(s, t, start, names, k)
  {
    if SparedSince(c, t, start, names, k + 1) {
      SparedChain(s, c, t, start, names, k + 1);
    }
  }

  lemma ShutAttempts(s: Sys, start: Fleet, names: seq<string>, k: nat, cfg: Config, platform: Platform, rack: string)
    returns (c: Sys, t: Sys)
    requires HealthyRack(start, names, cfg.scope, rack) && Succeeds(platform)
    requires k < |names| && DownTo(s.fleet, start, names, k) && CompletedSteps(s.journal, names[k]) == []
    ensures Attempt(s, names[k], DoCordon, cfg, platform) == StepResult(c, StepOk)
    ensures CompletedSteps(c.journal, names[k]) == [DoCordon]
    ensures Attempt(c, names[k], DoPowerOff, cfg, platform)
         == StepResult(t, if |names| - k - 1 >= cfg.floor then StepOk else StepBlocked)
    ensures if |names| - k - 1 >= cfg.floor then WentDown(s, t, start, names, k) else StoppedAt(s, t, start, names, k)
  {
    CordonNext(s, start, names, k, cfg, platform, rack);
    c := Attempt(s, names[k], DoCordon, cfg, platform).sys;
    GateAfterCordon(c, start, names, k, cfg, platform, rack);
    t := Attempt(c, names[k], DoPowerOff, cfg, platform).sys;
    AfterStop(s, c, t, start, names, k);
  }

  lemma CordonThenPowerOff(s: Sys, c: Sys, p: StepResult, name: string, cfg: Config, platform: Platform)
    requires CompletedSteps(s.journal, name) == [] && CompletedSteps(c.journal, name) == [DoCordon]
    requires Attempt(s, name, DoCordon, cfg, platform) == StepResult(c, StepOk)
    requires Attempt(c, name, DoPowerOff, cfg, platform) == p
    ensures MaintainFrom(s, name, SHUTDOWN, 0, cfg, platform) == MachineRun(p.sys, ResultRow(DoPowerOff, p.outcome))
  {
    assert MaintainFrom(s, name, SHUTDOWN, 0, cfg, platform) == MaintainFrom(c, name, SHUTDOWN, 1, cfg, platform);
    assert MaintainFrom(p.sys, name, SHUTDOWN, 2, cfg, platform) == MachineRun(p.sys, MachineOk);
  }

  /** One machine of a shutdown run: down if the floor allows, else cordoned and blocked. */
  lemma ShutOne(s: Sys, start: Fleet, names: seq<string>, k: nat, cfg: Config, platform: Platform, rack: string)
    returns (t: Sys)
    requires HealthyRack(start, names, cfg.scope, rack) && Succeeds(platform)
    requires k < |names| && DownTo(s.fleet, start, names, k) && CompletedSteps(s.journal, names[k]) == []
    ensures MaintainFrom(s, names[k], SHUTDOWN, 0, cfg, platform)
         == MachineRun(t, if |names| - k - 1 >= cfg.floor then MachineOk else BlockedNoHeadroom)
    ensures if |names| - k - 1 >= cfg.floor then WentDown(s, t, start, names, k) else StoppedAt(s, t, start, names, k)
  {
    var c, down := ShutAttempts(s, start, names, k, cfg, platform, rack);
    t := down;
    if |names| - k - 1 >= cfg.floor {
      CordonThenPowerOff(s, c, StepResult(t, StepOk), names[k], cfg, platform);
    } else {
      CordonThenPowerOff(s, c, StepResult(t, StepBlocked), names[k], cfg, platform);
    }
  }

  /** With the machine cordoned, the gate counts those still to come and lets it go or not. */
  lemma GateAfterCordon(c: Sys, start: Fleet, names: seq<string>, k: nat, cfg: Config, platform: Platform, rack: string)
    requires HealthyRack(start, names, cfg.scope, rack) && Succeeds(platform)
    requires k < |names| && NextCordoned(c.fleet, start, names, k)
    requires CompletedSteps(c.journal, names[k]) == [DoCordon]
    ensures var p := Attempt(c, names[k], DoPowerOff, cfg, platform);
      if |names| - k - 1 >= cfg.floor then p.outcome == StepOk && WentDown(c, p.sys, start, names, k)
      else p.outcome == StepBlocked && StoppedAt(c, p.sys, start, names, k)
  {
    NeighboursLeft(c.fleet, start, names, cfg.scope, rack, k);
    TailSpared(c.fleet, start, names, k, cfg.scope, rack);
    FoundAlike(c.fleet, names[k], DoPowerOff, cfg, platform);
    AttemptSpares(c, start, names, k, DoPowerOff, cfg, platform);
    AttemptRecords(c, names[k], DoPowerOff, cfg, platform);
    if |names| - k - 1 >= cfg.floor {
      AttemptSucceeds(c, names[k], DoPowerOff, cfg, platform);
      OneMoreDown(c.fleet, Attempt(c, names[k], DoPowerOff, cfg, platform).sys.fleet, start, names, k);
    }
  }

  lemma OneMoreDown(before: Fleet, after: Fleet, start: Fleet, names: seq<string>, k: nat)
    requires k < |names| && names[k] !in names[..k] && NextCordoned(before, start, names, k)
    requires OnlyTouches(before, after, names[k]) && after[names[k]].power == Off
    ensures DownTo(after, start, names, k + 1)
  {
    assert names[..k + 1] == names[..k] + [names[k]];
  }

  /** Where a shutdown run on a healthy rack comes to rest, in the fleet and in the journal. */
  ghost predicate AtRest(t: Sys, start: Fleet, names: seq<string>, k: nat) {
    && k < |names|
    && NextCordoned(t.fleet, start, names, k)
    && (forall i :: 0 <= i < k ==> CompletedSteps(t.journal, names[i]) == SHUTDOWN)
    && CompletedSteps(t.journal, names[k]) == [DoCordon]
  }

  ghost predicate DownSoFar(t: Sys, start: Fleet, names: seq<string>, k: nat) {
    && k <= |names|
    && DownTo(t.fleet, start, names, k)
    && (forall i :: 0 <= i < k ==> CompletedSteps(t.journal, names[i]) == SHUTDOWN)
    && (forall i :: k <= i < |names| ==> CompletedSteps(t.journal, names[i]) == [])
  }

  /** A run over the machines from `k` on that brings the rack to rest with `top` of them down. */
  ghost predicate RestsAt(s: Sys, run: Run, start: Fleet, names: seq<string>, k: nat, top: nat) {
    && AtRest(run.sys, start, names, top)
    && SparedSince(s, run.sys, start, names, top + 1)
    && !run.killed && |run.rows| == top - k + 1
  }

  /** When a machine gets through, the run rests where the rest of it does. */
  lemma RestsOneEarlier(s: Sys, start: Fleet, names: seq<string>, k: nat, top: nat, cfg: Config, platform: Platform)
    requires k < |names| && top < |names| && !cfg.keepGoing
    requires var m := MaintainFrom(s, names[k], PhaseSteps(ShutdownPhase), 0, cfg, platform);
      && m.result == MachineOk
      && SparedSince(s, m.sys, start, names, top + 1)
      && RestsAt(m.sys, RunScope(m.sys, names[k + 1..], ShutdownPhase, cfg, platform), start, names, k + 1, top)
    ensures RestsAt(s, RunScope(s, names[k..], ShutdownPhase, cfg, platform), start, names, k, top)
  {
    var next := MaintainFrom(s, names[k], PhaseSteps(ShutdownPhase), 0, cfg, platform).sys;
    RunAt(s, names, k, ShutdownPhase, cfg, platform);
    SparedChain(s, next, RunScope(next, names[k + 1..], ShutdownPhase, cfg, platform).sys, start, names, top + 1);
  }

  lemma {:induction false} ShutdownFrom(s: Sys, start: Fleet, names: seq<string>, k: nat, cfg: Config,
                                        platform: Platform, rack: string)
    requires HealthyRack(start, names, cfg.scope, rack) && Succeeds(platform)
    requires names != [] && cfg.floor >= 1 && !cfg.keepGoing
    requires k <= Allowance(names, cfg.floor) && DownSoFar(s, start, names, k)
    ensures RestsAt(s, RunScope(s, names[k..], ShutdownPhase, cfg, platform), start, names, k,
                    Allowance(names, cfg.floor))
    decreases |names| - k
  {
    if k < Allowance(names, cfg.floor) {
      var next := ShutNext(s, start, names, k, cfg, platform, rack);
      ShutdownFrom(next, start, names, k + 1, cfg, platform, rack);
      RestsOneEarlier(s, start, names, k, Allowance(names, cfg.floor), cfg, platform);
    } else {
      ShutLast(s, start, names, k, cfg, platform, rack);
    }
  }

  /** Within the allowance: the machine goes down. */
  lemma ShutNext(s: Sys, start: Fleet, names: seq<string>, k: nat, cfg: Config, platform: Platform, rack: string)
    returns (next: Sys)
    requires HealthyRack(start, names, cfg.scope, rack) && Succeeds(platform)
    requires cfg.floor >= 1 && !cfg.keepGoing
    requires k < Allowance(names, cfg.floor) && DownSoFar(s, start, names, k)
    ensures MaintainFrom(s, names[k], PhaseSteps(ShutdownPhase), 0, cfg, platform) == MachineRun(next, MachineOk)
    ensures DownSoFar(next, start, names, k + 1)
    ensures SparedSince(s, next, start, names, Allowance(names, cfg.floor) + 1)
  {
    next := ShutOne(s, start, names, k, cfg, platform, rack);
    DownOneMore(s, next, start, names, k);
    WiderSpared(s, next, start, names, k + 1, Allowance(names, cfg.floor) + 1);
  }

  /** At the allowance: the machine is cordoned, the gate blocks it, and the run stops. */
  lemma ShutLast(s: Sys, start: Fleet, names: seq<string>, k: nat, cfg: Config, platform: Platform, rack: string)
    requires HealthyRack(start, names, cfg.scope, rack) && Succeeds(platform)
    requires names != [] && cfg.floor >= 1 && !cfg.keepGoing
    requires k == Allowance(names, cfg.floor) && DownSoFar(s, start, names, k)
    ensures RestsAt(s, RunScope(s, names[k..], ShutdownPhase, cfg, platform), start, names, k, k)
  {
    var t := ShutOne(s, start, names, k, cfg, platform, rack);
    RunAt(s, names, k, ShutdownPhase, cfg, platform);
    assert forall i :: 0 <= i < k ==> names[i] != names[k];
  }

  /** The machine loop, one machine further along the list. */
  lemma RunAt(s: Sys, names: seq<string>, k: nat, phase: Phase, cfg: Config, platform: Platform)
    requires k < |names| && !cfg.keepGoing
    ensures var m := MaintainFrom(s, names[k], PhaseSteps(phase), 0, cfg, platform);
      var run := RunScope(s, names[k..], phase, cfg, platform);
      && (m.result == MachineOk ==>
            var rest := RunScope(m.sys, names[k + 1..], phase, cfg, platform);
            run.sys == rest.sys && run.killed == rest.killed && run.rows == [Row(names[k], MachineOk)] + rest.rows)
      && (m.result != MachineOk && m.result != MachineKilled ==>
            run == Run(m.sys, [Row(names[k], m.result)], false))
  {
    assert names[k..][0] == names[k] && names[k..][1..] == names[k + 1..];
  }

  lemma DownOneMore(s: Sys, t: Sys, start: Fleet, names: seq<string>, k: nat)
    requires Distinct(names) && k < |names| && DownSoFar(s, start, names, k)
    requires OthersSame(s.journal, t.journal, names[k]) && CompletedSteps(t.journal, names[k]) == SHUTDOWN
    requires DownTo(t.fleet, start, names, k + 1)
    ensures DownSoFar(t, start, names, k + 1)
  {
    assert forall i :: 0 <= i < |names| && i != k ==> names[i] != names[k];
  }

  lemma SparedChain(a: Sys, b: Sys, c: Sys, start: Fleet, names: seq<string>, k: nat)
    requires k <= |names| && SparedSince(a, b, start, names, k) && SparedSince(b, c, start, names, k)
    ensures SparedSince(a, c, start, names, k)
  {
    forall i | |a.trace| <= i < |c.trace| ensures Spared(c.trace[i].fleet, start, names, k) {
      if i < |b.trace| {
        assert c.trace[i] == b.trace[i];
      }
    }
  }

  lemma WiderSpared(before: Sys, after: Sys, start: Fleet, names: seq<string>, k: nat, j: nat)
    requires k <= j <= |names| && SparedSince(before, after, start, names, k)
    ensures SparedSince(before, after, start, names, j)
  {
    assert names[k..] == names[k..j] + names[j..];
    forall i | |before.trace| <= i < |after.trace| ensures Spared(after.trace[i].fleet, start, names, j) {
      assert Spared(after.trace[i].fleet, start, names, k);
    }
  }

  // ------------------------------------------------------------ repetition

  /** The run again, on the journal it left: completed machines are skipped, the cordoned one is blocked again. */
  lemma {:induction false} RestAgain(s: Sys, start: Fleet, names: seq<string>, k: nat, cfg: Config, platform: Platform,
                                     rack: string)
    requires HealthyRack(start, names, cfg.scope, rack) && names != [] && cfg.floor >= 1 && !cfg.keepGoing
    requires Succeeds(platform)
    requires k <= Allowance(names, cfg.floor) && AtRest(s, start, names, Allowance(names, cfg.floor))
    ensures var run := RunScope(s, names[k..], ShutdownPhase, cfg, platform);
      && AtRest(run.sys, start, names, Allowance(names, cfg.floor))
      && SparedSince(s, run.sys, start, names, Allowance(names, cfg.floor) + 1)
      && !run.killed && |run.rows| == Allowance(names, cfg.floor) - k + 1
    decreases |names| - k
  {
    var top := Allowance(names, cfg.floor);
    RunAt(s, names, k, ShutdownPhase, cfg, platform);
    if k < top {
      WalkSkips(s, names[k], ShutdownPhase, 0, cfg, platform);
      assert MaintainFrom(s, names[k], PhaseSteps(ShutdownPhase), 0, cfg, platform) == MachineRun(s, MachineOk);
      RestAgain(s, start, names, k + 1, cfg, platform, rack);
    } else {
      BlockedAgain(s, start, names, cfg, platform, rack);
    }
  }

  lemma BlockedAgain(s: Sys, start: Fleet, names: seq<string>, cfg: Config, platform: Platform, rack: string)
    requires HealthyRack(start, names, cfg.scope, rack) && names != [] && cfg.floor >= 1
    requires Succeeds(platform) && AtRest(s, start, names, Allowance(names, cfg.floor))
    ensures var top := Allowance(names, cfg.floor);
      var m := MaintainFrom(s, names[top], SHUTDOWN, 0, cfg, platform);
      && m.result == BlockedNoHeadroom
      && AtRest(m.sys, start, names, top)
      && SparedSince(s, m.sys, start, names, top + 1)
  {
    var top := Allowance(names, cfg.floor);
    var name := names[top];
    GateAfterCordon(s, start, names, top, cfg, platform, rack);
    assert Completed(s.journal, name, DoCordon) && !Completed(s.journal, name, DoPowerOff);
    assert MaintainFrom(s, name, SHUTDOWN, 0, cfg, platform) == MaintainFrom(s, name, SHUTDOWN, 1, cfg, platform);
    assert forall i :: 0 <= i < top ==> names[i] != name;
  }

  ghost function HealthyAmong(f: Fleet, names: seq<string>): set<string> {
    set n | n in names && n in f && Healthy(f[n])
  }

  lemma SparedStayHealthy(f: Fleet, start: Fleet, names: seq<string>, scope: Scope, rack: string, k: nat)
    requires HealthyRack(start, names, scope, rack) && k <= |names| && Spared(f, start, names, k)
    ensures |HealthyAmong(f, names)| >= |names| - k
  {
    TailSize(names, k);
    forall n | n in Tail(names, k) ensures n in HealthyAmong(f, names) {
      var j :| 0 <= j < |names| - k && names[k..][j] == n;
      assert names[k + j] == n;
    }
    SubsetSize(Tail(names, k), HealthyAmong(f, names));
  }

  lemma HealthyAtRest(t: Sys, start: Fleet, names: seq<string>, scope: Scope, rack: string, k: nat)
    requires HealthyRack(start, names, scope, rack) && AtRest(t, start, names, k)
    ensures HealthyAmong(t.fleet, names) == Tail(names, k + 1)
    ensures forall n :: n in names ==> n in t.fleet && (t.fleet[n].power == Off <==> n in names[..k])
  {
    TailSpared(t.fleet, start, names, k, scope, rack);
    forall n ensures n in HealthyAmong(t.fleet, names) <==> n in Tail(names, k + 1) {
      if n in names[k + 1..] {
        var j :| 0 <= j < |names| - k - 1 && names[k + 1..][j] == n;
        assert names[k + 1 + j] == n;
      }
      NotYetDown(names, k, n);
    }
  }

  /** The same shutdown run, as often as wanted. */
  ghost predicate Repeats(items: seq<Item>, names: seq<string>, cfg: Config) {
    forall i :: 0 <= i < |items| ==>
      && items[i].RunOf? && items[i].names == names && items[i].phase == ShutdownPhase
      && items[i].cfg == cfg && Succeeds(items[i].platform)
  }

  lemma {:induction false} RestThroughRepeats(s: Sys, start: Fleet, items: seq<Item>, names: seq<string>,
                                              cfg: Config, rack: string)
    requires HealthyRack(start, names, cfg.scope, rack) && names != [] && cfg.floor >= 1 && !cfg.keepGoing
    requires AtRest(s, start, names, Allowance(names, cfg.floor)) && Repeats(items, names, cfg)
    ensures AtRest(Play(s, items), start, names, Allowance(names, cfg.floor))
    ensures SparedSince(s, Play(s, items), start, names, Allowance(names, cfg.floor) + 1)
    decreases |items|
  {
    if items != [] {
      assert names[0..] == names;
      RestAgain(s, start, names, 0, cfg, items[0].platform, rack);
      var next := PlayItem(s, items[0]);
      RestThroughRepeats(next, start, items[1..], names, cfg, rack);
      SparedChain(s, next, Play(s, items), start, names, Allowance(names, cfg.floor) + 1);
    }
  }

  /**
   The exact effect of `--phase shutdown` on a rack of healthy machines with floor f >= 1, run
   once or however often: the first max(0, n - f) machines are off and no other is, and the
   healthy count ends at min(n, f) - 1 without ever having been lower. The last machine tried is
   cordoned before the gate is asked, so the floor itself is missed by one.
   */
  lemma ExactShutdown(s: Sys, items: seq<Item>, names: seq<string>, cfg: Config, rack: string)
    requires HealthyRack(s.fleet, names, cfg.scope, rack) && names != [] && cfg.floor >= 1 && !cfg.keepGoing
    requires forall n :: n in names ==> CompletedSteps(s.journal, n) == []
    requires items != [] && Repeats(items, names, cfg)
    ensures var after := Play(s, items);
      var least := (if |names| < cfg.floor then |names| else cfg.floor) - 1;
      && after.fleet.Keys == s.fleet.Keys
      && (forall n :: n in names ==> (after.fleet[n].power == Off <==> n in names[..Allowance(names, cfg.floor)]))
      && |HealthyAmong(after.fleet, names)| == least
      && s.trace <= after.trace
      && (forall i :: |s.trace| <= i < |after.trace| ==> |HealthyAmong(after.trace[i].fleet, names)| >= least)
  {
    var top := Allowance(names, cfg.floor);
    var after := Play(s, items);
    ComesToRest(s, items, names, cfg, rack);
    HealthyAtRest(after, s.fleet, names, cfg.scope, rack, top);
    TailSize(names, top + 1);
    forall i | |s.trace| <= i < |after.trace| ensures |HealthyAmong(after.trace[i].fleet, names)| >= |names| - top - 1 {
      SparedStayHealthy(after.trace[i].fleet, s.fleet, names, cfg.scope, rack, top + 1);
    }
  }

  lemma FirstShutdown(s: Sys, names: seq<string>, cfg: Config, platform: Platform, rack: string)
    requires HealthyRack(s.fleet, names, cfg.scope, rack) && names != [] && cfg.floor >= 1 && !cfg.keepGoing
    requires forall n :: n in names ==> CompletedSteps(s.journal, n) == []
    requires Succeeds(platform)
    ensures RestsAt(s, RunScope(s, names, ShutdownPhase, cfg, platform), s.fleet, names, 0, Allowance(names, cfg.floor))
  {
    assert names[0..] == names && names[..0] == [];
    ShutdownFrom(s, s.fleet, names, 0, cfg, platform, rack);
  }

  lemma ComesToRest(s: Sys, items: seq<Item>, names: seq<string>, cfg: Config, rack: string)
    requires HealthyRack(s.fleet, names, cfg.scope, rack) && names != [] && cfg.floor >= 1 && !cfg.keepGoing
    requires forall n :: n in names ==> CompletedSteps(s.journal, n) == []
    requires items != [] && Repeats(items, names, cfg)
    ensures AtRest(Play(s, items), s.fleet, names, Allowance(names, cfg.floor))
    ensures SparedSince(s, Play(s, items), s.fleet, names, Allowance(names, cfg.floor) + 1)
  {
    var first := PlayItem(s, items[0]);
    FirstShutdown(s, names, cfg, items[0].platform, rack);
    RestThroughRepeats(first, s.fleet, items[1..], names, cfg, rack);
    SparedChain(s, first, Play(s, items), s.fleet, names, Allowance(names, cfg.floor) + 1);
  }

  /** The scope of a real run is such a rack, and its machines come lowest slot first. */
  lemma ScopeIsRack(listing: seq<Listed>, fleet: Fleet, scope: Scope, rack: string)
    requires Lists(listing, fleet)
    requires forall n :: n in fleet && InScope(n, fleet[n], scope) ==> RackName(fleet[n]) == rack && Healthy(fleet[n])
    ensures var names := Names(Scoped(listing, scope));
      && HealthyRack(fleet, names, scope, rack)
      && (forall i, j :: 0 <= i < j < |names| ==> fleet[names[i]].slot <= fleet[names[j]].slot)
  {
    ScopedIsExact(listing, fleet, scope);
    var machines := Scoped(listing, scope);
    var names := Names(machines);
    forall i, j | 0 <= i < j < |names| ensures fleet[names[i]].slot <= fleet[names[j]].slot {
      assert RackSlotLe(machines[i], machines[j]);
      assert names[i] in names && names[j] in names;
    }
  }

  // -------------------------------------------------------------- keep going

  ghost predicate CordonsHeld(t: Sys, keys: set<string>) {
    && t.fleet.Keys == keys
    && forall n :: n in keys && Completed(t.journal, n, DoCordon) ==> SpotOf(t.fleet[n]).cordon == Cordoned
  }

  lemma CordonsKept(keys: set<string>, names: seq<string>, cfg: Config, platform: Platform)
    requires Obedient(platform)
    ensures KeptBy((t: Sys) => CordonsHeld(t, keys), names, ShutdownPhase, cfg, platform)
  {
    forall t, n, k | CordonsHeld(t, keys) && n in names && StepDue(t, n, SHUTDOWN, k)
      ensures CordonsHeld(Attempt(t, n, SHUTDOWN[k], cfg, platform).sys, keys)
    {
      var a := Attempt(t, n, SHUTDOWN[k], cfg, platform);
      AttemptObedient(t, n, SHUTDOWN[k], cfg, platform);
      AttemptRecords(t, n, SHUTDOWN[k], cfg, platform);
      assert Spots(a.sys.fleet).Keys == a.sys.fleet.Keys && Spots(t.fleet).Keys == t.fleet.Keys;
      forall m | m in keys && Completed(a.sys.journal, m, DoCordon)
        ensures SpotOf(a.sys.fleet[m]).cordon == Cordoned
      {
        assert Spots(a.sys.fleet)[m] == SpotOf(a.sys.fleet[m]) && Spots(t.fleet)[m] == SpotOf(t.fleet[m]);
      }
    }
  }

  lemma OneCordoned(s: Sys, name: string, cfg: Config, platform: Platform)
    requires Succeeds(platform) && name in s.fleet && CordonsHeld(s, s.fleet.Keys)
    ensures var m := MaintainFrom(s, name, PhaseSteps(ShutdownPhase), 0, cfg, platform);
      && m.result != MachineKilled
      && CordonsHeld(m.sys, s.fleet.Keys)
      && Completed(m.sys.journal, name, DoCordon)
  {
    CordonsKept(s.fleet.Keys, [name], cfg, platform);
    MaintainKeeps((t: Sys) => CordonsHeld(t, s.fleet.Keys), s, name, ShutdownPhase, 0, cfg, platform);
    var t := s;
    if !Completed(s.journal, name, DoCordon) {
      AttemptSucceeds(s, name, DoCordon, cfg, platform);
      AttemptRecords(s, name, DoCordon, cfg, platform);
      t := Attempt(s, name, DoCordon, cfg, platform).sys;
    }
    PowerOffTried(t, name, cfg, platform);
  }

  lemma PowerOffTried(s: Sys, name: string, cfg: Config, platform: Platform)
    requires Succeeds(platform) && name in s.fleet && Completed(s.journal, name, DoCordon)
    ensures var m := MaintainFrom(s, name, SHUTDOWN, 1, cfg, platform);
      m.result != MachineKilled && Completed(m.sys.journal, name, DoCordon)
  {
    if !Completed(s.journal, name, DoPowerOff) {
      var a := Attempt(s, name, DoPowerOff, cfg, platform);
      AttemptRecords(s, name, DoPowerOff, cfg, platform);
      FoundAlike(s.fleet, name, DoPowerOff, cfg, platform);
      if Headroom(s.fleet, cfg.scope, name, cfg.floor) {
        AttemptSucceeds(s, name, DoPowerOff, cfg, platform);
      }
      assert MaintainFrom(a.sys, name, SHUTDOWN, 2, cfg, platform) == MachineRun(a.sys, MachineOk);
    }
  }

  /**
   Why ExactShutdown asks for a run without --keep-going: with it every machine of the scope ends
   cordoned, whatever the floor, because the gate is only asked after the cordon.
   */
  lemma {:induction false} KeepGoingCordonsAll(s: Sys, names: seq<string>, cfg: Config, platform: Platform)
    requires Succeeds(platform) && cfg.keepGoing && CordonsHeld(s, s.fleet.Keys)
    requires forall n :: n in names ==> n in s.fleet
    ensures var after := RunScope(s, names, ShutdownPhase, cfg, platform).sys;
      && CordonsHeld(after, s.fleet.Keys)
      && Grows(s.journal, after.journal)
      && (forall n :: n in names ==> after.fleet[n].cordon == Cordoned)
    decreases |names|
  {
    RunGrows(s, names, ShutdownPhase, cfg, platform);
    if names != [] {
      OneCordoned(s, names[0], cfg, platform);
      var next := MaintainFrom(s, names[0], PhaseSteps(ShutdownPhase), 0, cfg, platform).sys;
      KeepGoingCordonsAll(next, names[1..], cfg, platform);
      var after := RunScope(s, names, ShutdownPhase, cfg, platform).sys;
      assert CompletedSteps(next.journal, names[0]) <= CompletedSteps(after.journal, names[0]);
    }
  }

  // ------------------------------------------------------------- whole walk

  predicate HardwareFine(m: Machine) {
    m.hardware == NoResult || m.hardware == Pass
  }

  /** Good hardware stays good, and a machine that has rejoined stays so while it is uncordoned and verified. */
  predicate StaysFit(before: Machine, after: Machine, step: Step) {
    && (HardwareFine(before) ==> HardwareFine(after))
    && ((step == DoUncordon || step == DoVerify) && Goal(DoWaitReady, before) ==> Goal(DoWaitReady, after))
  }

  ghost predicate AllStayFit(before: Machine, seen: seq<Fleet>, name: string, step: Step) {
    forall i :: 0 <= i < |seen| && name in seen[i] ==> StaysFit(before, seen[i][name], step)
  }

  ghost predicate KeepsFit(platform: Platform) {
    forall f: Fleet, n: string, step {:trigger AllStayFit(f[n], Fleets(platform(f, n, step)), n, step)} ::
      n in f ==> AllStayFit(f[n], Fleets(platform(f, n, step)), n, step)
  }

  lemma AttemptKeepsFit(s: Sys, name: string, step: Step, cfg: Config, platform: Platform)
    requires Succeeds(platform) && KeepsFit(platform) && name in s.fleet
    requires Attempt(s, name, step, cfg, platform).outcome == StepOk
    ensures var found := platform(s.fleet, name, step).found;
      name in found && StaysFit(s.fleet[name], found[name], step)
    ensures var after := Attempt(s, name, step, cfg, platform).sys.fleet;
      name in after && StaysFit(s.fleet[name], after[name], step)
  {
    var r := platform(s.fleet, name, step);
    assert Works(s.fleet, name, step, r);
    assert AllStayFit(s.fleet[name], Fleets(r), name, step);
    assert Fleets(r)[0] == r.found;
    assert forall i :: 0 <= i < |r.seen| ==> Fleets(r)[i + 2] == r.seen[i];
    if step != DoVerify {
      PolledIsSeen(step, name, r.called, r.seen);
    }
  }

  /** `s` is `base` with one machine `i` steps into the phase and nothing further recorded. */
  ghost predicate PartWay(base: Fleet, s: Sys, name: string, phase: Phase, i: nat)
    requires i <= |PhaseSteps(phase)|
  {
    && name in base && OnlyTouches(base, s.fleet, name)
    && WalkedTo(base[name], s.fleet[name], PhaseSteps(phase), i)
    && forall j :: i <= j < |PhaseSteps(phase)| ==> !Completed(s.journal, name, PhaseSteps(phase)[j])
  }

  ghost predicate WalkedTo(start: Machine, now: Machine, steps: seq<Step>, i: nat)
    requires i <= |steps|
  {
    && Placed(start, now)
    && SpotOf(now) == Walked(steps, SpotOf(start), i)
    && (HardwareFine(start) ==> HardwareFine(now))
    && (DoWaitReady in steps[..i] ==> Goal(DoWaitReady, now))
    && (DoVerify in steps[..i] ==> Healthy(now))
  }

  /** What a phase needs to get a machine through: headroom to power off, good hardware to verify. */
  ghost predicate CanWalk(base: Fleet, name: string, phase: Phase, cfg: Config) {
    && name in base
    && (phase != RestorePhase ==> Headroom(base, cfg.scope, name, cfg.floor))
    && (phase != ShutdownPhase ==> HardwareFine(base[name]))
  }

  lemma GateOpen(base: Fleet, s: Sys, name: string, phase: Phase, i: nat, cfg: Config)
    requires i < |PhaseSteps(phase)| && PartWay(base, s, name, phase, i) && CanWalk(base, name, phase, cfg)
    ensures PhaseSteps(phase)[i] == DoPowerOff ==> Headroom(s.fleet, cfg.scope, name, cfg.floor)
  {
    if PhaseSteps(phase)[i] == DoPowerOff {
      assert HealthyOthers(s.fleet, cfg.scope, name) == HealthyOthers(base, cfg.scope, name);
    }
  }

  /** Wherever a phase verifies, it has powered on, waited and uncordoned before. */
  lemma VerifyComesLast(phase: Phase, i: nat, start: Spot)
    requires i < |PhaseSteps(phase)| && PhaseSteps(phase)[i] == DoVerify
    ensures i == |PhaseSteps(phase)| - 1 && phase != ShutdownPhase
    ensures DoWaitReady in PhaseSteps(phase)[..i]
    ensures Walked(PhaseSteps(phase), start, i) == Spot(On, Uncordoned)
  {
    var steps := PhaseSteps(phase);
    assert steps[..i][i - 2] == DoWaitReady && steps[i - 1] == DoUncordon && steps[i - 3] == DoPowerOn;
    assert Walked(steps, start, i - 2).power == On;
    assert Walked(steps, start, i - 1) == Walked(steps, start, i - 2);
  }

  lemma FoundHealthy(base: Fleet, s: Sys, name: string, phase: Phase, i: nat, cfg: Config, platform: Platform)
    requires Succeeds(platform) && KeepsFit(platform) && i < |PhaseSteps(phase)|
    requires PartWay(base, s, name, phase, i) && CanWalk(base, name, phase, cfg)
    requires PhaseSteps(phase)[i] == DoVerify
    ensures var found := platform(s.fleet, name, DoVerify).found; name in found && Healthy(found[name])
  {
    var r := platform(s.fleet, name, DoVerify);
    VerifyComesLast(phase, i, SpotOf(base[name]));
    FoundAlike(s.fleet, name, DoVerify, cfg, platform);
    assert AllStayFit(s.fleet[name], Fleets(r), name, DoVerify);
    assert Fleets(r)[0] == r.found;
  }

  lemma StepsDistinct(phase: Phase)
    ensures Distinct(PhaseSteps(phase))
  {
  }

  /** Once a machine has rejoined, only uncordon and verify are left to do. */
  lemma AfterRejoining(phase: Phase, i: nat)
    requires i < |PhaseSteps(phase)|
    ensures DoWaitReady in PhaseSteps(phase)[..i] ==>
      PhaseSteps(phase)[i] == DoUncordon || PhaseSteps(phase)[i] == DoVerify
    ensures DoVerify !in PhaseSteps(phase)[..i]
    ensures PhaseSteps(phase)[..i + 1] == PhaseSteps(phase)[..i] + [PhaseSteps(phase)[i]]
  {
  }

  lemma WalkStep(base: Fleet, s: Sys, name: string, phase: Phase, i: nat, cfg: Config, platform: Platform)
    returns (t: Sys)
    requires Succeeds(platform) && KeepsFit(platform) && i < |PhaseSteps(phase)|
    requires PartWay(base, s, name, phase, i) && CanWalk(base, name, phase, cfg)
    ensures Attempt(s, name, PhaseSteps(phase)[i], cfg, platform) == StepResult(t, StepOk)
    ensures PartWay(base, t, name, phase, i + 1) && OthersSame(s.journal, t.journal, name)
  {
    var step := PhaseSteps(phase)[i];
    GateOpen(base, s, name, phase, i, cfg);
    if step == DoVerify {
      FoundHealthy(base, s, name, phase, i, cfg, platform);
    }
    AttemptSucceeds(s, name, step, cfg, platform);
    AttemptKeepsFit(s, name, step, cfg, platform);
    NothingFurther(s, name, phase, i, cfg, platform);
    AfterRejoining(phase, i);
    t := Attempt(s, name, step, cfg, platform).sys;
    assert Walked(PhaseSteps(phase), SpotOf(base[name]), i + 1) == SpotOf(t.fleet[name]);
  }

  lemma NothingFurther(s: Sys, name: string, phase: Phase, i: nat, cfg: Config, platform: Platform)
    requires i < |PhaseSteps(phase)|
    requires forall j :: i <= j < |PhaseSteps(phase)| ==> !Completed(s.journal, name, PhaseSteps(phase)[j])
    ensures var t := Attempt(s, name, PhaseSteps(phase)[i], cfg, platform).sys;
      && (forall j :: i < j < |PhaseSteps(phase)| ==> !Completed(t.journal, name, PhaseSteps(phase)[j]))
      && OthersSame(s.journal, t.journal, name)
  {
    var steps := PhaseSteps(phase);
    AttemptRecords(s, name, steps[i], cfg, platform);
    StepsDistinct(phase);
    forall j | i < j < |steps|
      ensures !Completed(Attempt(s, name, steps[i], cfg, platform).sys.journal, name, steps[j])
    {
      assert steps[j] != steps[i] && !Completed(s.journal, name, steps[j]);
    }
  }

  lemma StepsOn(s: Sys, t: Sys, name: string, steps: seq<Step>, i: nat, cfg: Config, platform: Platform)
    requires i < |steps| && !Completed(s.journal, name, steps[i])
    requires Attempt(s, name, steps[i], cfg, platform) == StepResult(t, StepOk)
    ensures MaintainFrom(s, name, steps, i, cfg, platform) == MaintainFrom(t, name, steps, i + 1, cfg, platform)
  {
  }

  /** A machine none of whose steps are done goes through the phase. */
  lemma {:induction false} WalkSucceeds(base: Fleet, s: Sys, name: string, phase: Phase, i: nat, cfg: Config,
                                        platform: Platform)
    requires Succeeds(platform) && KeepsFit(platform) && i <= |PhaseSteps(phase)|
    requires PartWay(base, s, name, phase, i) && CanWalk(base, name, phase, cfg)
    ensures var m := MaintainFrom(s, name, PhaseSteps(phase), i, cfg, platform);
      && m.result == MachineOk
      && PartWay(base, m.sys, name, phase, |PhaseSteps(phase)|)
      && OthersSame(s.journal, m.sys.journal, name)
    decreases |PhaseSteps(phase)| - i
  {
    if i < |PhaseSteps(phase)| {
      var t := WalkStep(base, s, name, phase, i, cfg, platform);
      StepsOn(s, t, name, PhaseSteps(phase), i, cfg, platform);
      WalkSucceeds(base, t, name, phase, i + 1, cfg, platform);
    }
  }

  lemma WalkFromStart(s: Sys, name: string, phase: Phase, cfg: Config, platform: Platform)
    requires Succeeds(platform) && KeepsFit(platform) && CanWalk(s.fleet, name, phase, cfg)
    requires forall step :: step in PhaseSteps(phase) ==> !Completed(s.journal, name, step)
    ensures var m := MaintainFrom(s, name, PhaseSteps(phase), 0, cfg, platform);
      && m.result == MachineOk
      && PartWay(s.fleet, m.sys, name, phase, |PhaseSteps(phase)|)
      && OthersSame(s.journal, m.sys.journal, name)
  {
    assert PhaseSteps(phase)[..0] == [];
    assert PartWay(s.fleet, s, name, phase, 0);
    WalkSucceeds(s.fleet, s, name, phase, 0, cfg, platform);
  }

  /** New to the journal, hardware not failing, and spared by its rack. */
  ghost predicate ReadyForAll(s: Sys, names: seq<string>, cfg: Config) {
    && Distinct(names)
    && forall n :: n in names ==> CompletedSteps(s.journal, n) == [] && CanWalk(s.fleet, n, FullPhase, cfg)
  }

  /** A machine that has become healthy takes no headroom from others. */
  lemma HeadroomStays(before: Fleet, after: Fleet, name: string, done: string, cfg: Config)
    requires name != done && OnlyTouches(before, after, done) && done in before
    requires Placed(before[done], after[done]) && Healthy(after[done])
    requires Headroom(before, cfg.scope, name, cfg.floor)
    ensures Headroom(after, cfg.scope, name, cfg.floor)
  {
    SubsetSize(HealthyOthers(before, cfg.scope, name), HealthyOthers(after, cfg.scope, name));
  }

  lemma OneThrough(s: Sys, names: seq<string>, cfg: Config, platform: Platform)
    requires Succeeds(platform) && KeepsFit(platform) && names != [] && ReadyForAll(s, names, cfg)
    ensures var m := MaintainFrom(s, names[0], PhaseSteps(FullPhase), 0, cfg, platform);
      m.result == MachineOk && ReadyForAll(m.sys, names[1..], cfg)
  {
    assert names[0] in names;
    WalkFromStart(s, names[0], FullPhase, cfg, platform);
    var t := MaintainFrom(s, names[0], PhaseSteps(FullPhase), 0, cfg, platform).sys;
    assert STEPS[..|STEPS|][5] == DoVerify;
    forall n | n in names[1..]
      ensures CompletedSteps(t.journal, n) == [] && CanWalk(t.fleet, n, FullPhase, cfg)
    {
      assert n in names && n != names[0];
      HeadroomStays(s.fleet, t.fleet, n, names[0], cfg);
    }
  }

  /**
   From a fleet whose racks can spare each machine named, whatever state those machines are in, an
   uninterrupted full run exits 0.
   */
  lemma {:induction false} UninterruptedSucceeds(s: Sys, names: seq<string>, cfg: Config, platform: Platform)
    requires Succeeds(platform) && KeepsFit(platform) && ReadyForAll(s, names, cfg)
    ensures ExitsZero(RunScope(s, names, FullPhase, cfg, platform))
    decreases |names|
  {
    if names != [] {
      OneThrough(s, names, cfg, platform);
      var next := MaintainFrom(s, names[0], PhaseSteps(FullPhase), 0, cfg, platform).sys;
      UninterruptedSucceeds(next, names[1..], cfg, platform);
    }
  }

  // --------------------------------------------------- the floor, full phase

  /** A run's trace goes on from where each of its attempts left it. */
  lemma TraceGoesOn(t: seq<Event>, names: seq<string>, phase: Phase, cfg: Config, platform: Platform)
    ensures KeptBy((s: Sys) => t <= s.trace, names, phase, cfg, platform)
  {
    forall s: Sys, n, k | t <= s.trace && n in names && StepDue(s, n, PhaseSteps(phase), k)
      ensures t <= Attempt(s, n, PhaseSteps(phase)[k], cfg, platform).sys.trace
    {
      assert s.trace <= Attempt(s, n, PhaseSteps(phase)[k], cfg, platform).sys.trace;
    }
  }

  /** What a machine's first attempt leaves in the trace stays in the trace of the run. */
  lemma FirstAttemptKept(s: Sys, names: seq<string>, cfg: Config, platform: Platform)
    requires names != [] && CompletedSteps(s.journal, names[0]) == []
    requires Attempt(s, names[0], DoCordon, cfg, platform).outcome == StepOk
    ensures Attempt(s, names[0], DoCordon, cfg, platform).sys.trace
         <= RunScope(s, names, FullPhase, cfg, platform).sys.trace
  {
    var a := Attempt(s, names[0], DoCordon, cfg, platform).sys;
    var m := MaintainFrom(s, names[0], PhaseSteps(FullPhase), 0, cfg, platform);
    AttemptRecords(s, names[0], DoCordon, cfg, platform);
    assert m == MaintainFrom(a, names[0], PhaseSteps(FullPhase), 1, cfg, platform);
    TraceGoesOn(a.trace, [names[0]], FullPhase, cfg, platform);
    MaintainKeeps((t: Sys) => a.trace <= t.trace, a, names[0], FullPhase, 1, cfg, platform);
    assert names[0..] == names;
    RunUnfolds(s, names, 0, FullPhase, cfg, platform);
    TraceGoesOn(a.trace, names[1..], FullPhase, cfg, platform);
    RunKeeps((t: Sys) => a.trace <= t.trace, m.sys, names[1..], FullPhase, cfg, platform);
  }

  lemma FirstCordonSeen(s: Sys, names: seq<string>, cfg: Config, platform: Platform) returns (i: nat)
    requires Succeeds(platform) && names != [] && names[0] in s.fleet && CompletedSteps(s.journal, names[0]) == []
    ensures var t := RunScope(s, names, FullPhase, cfg, platform).sys.trace;
      |s.trace| <= i < |t| && names[0] in t[i].fleet && t[i].fleet[names[0]].cordon == Cordoned
  {
    AttemptSucceeds(s, names[0], DoCordon, cfg, platform);
    FirstAttemptKept(s, names, cfg, platform);
    LastEvent(s, names[0], DoCordon, cfg, platform);
    i := |Attempt(s, names[0], DoCordon, cfg, platform).sys.trace| - 1;
  }

  lemma LastEvent(s: Sys, name: string, step: Step, cfg: Config, platform: Platform)
    requires step == DoCordon && Attempt(s, name, step, cfg, platform).outcome == StepOk
    ensures var t := Attempt(s, name, step, cfg, platform).sys;
      |t.trace| > |s.trace| && t.trace[|t.trace| - 1].fleet == t.fleet
  {
    var r := platform(s.fleet, name, step);
    PolledEndsThere(step, name, r.called, r.seen);
  }

  lemma {:induction false} PolledEndsThere(step: Step, name: string, fleet: Fleet, seen: seq<Fleet>)
    ensures var o := Polled(step, name, fleet, seen);
      o.fleet == LastOf(fleet, o.passed)
    decreases |seen|
  {
    if seen != [] && name in seen[0] && !Goal(step, seen[0][name]) {
      PolledEndsThere(step, name, seen[0], seen[1..]);
    }
  }

  lemma AllButOneHealthy(f: Fleet, names: seq<string>)
    requires Distinct(names) && AtMostOneUnhealthy(f, set n | n in names)
    ensures |HealthyAmong(f, names)| >= |names| - 1
  {
    var all := set n | n in names;
    var name :| AllHealthy(f, all - {name});
    DistinctSize(names);
    SubsetSize(all - {name}, HealthyAmong(f, names));
  }

  lemma NotAllHealthy(f: Fleet, names: seq<string>, name: string)
    requires Distinct(names) && name in names && (name !in f || !Healthy(f[name]))
    ensures |HealthyAmong(f, names)| <= |names| - 1
  {
    var all := set n | n in names;
    DistinctSize(names);
    SubsetSize(HealthyAmong(f, names), all - {name});
  }

  /**
   "Healthy machines a rack must retain at all times", for the full phase on a rack of healthy
   machines: the floor holds at every point of the run if and only if the rack has more machines
   than the floor. With no more, the first cordon already breaks it, and only then does the gate refuse.
   */
  lemma FullRunKeepsFloorIff(s: Sys, names: seq<string>, cfg: Config, platform: Platform, rack: string)
    requires HealthyRack(s.fleet, names, cfg.scope, rack) && names != [] && !cfg.keepGoing && Succeeds(platform)
    requires forall n :: n in names ==> CompletedSteps(s.journal, n) == []
    ensures var after := RunScope(s, names, FullPhase, cfg, platform).sys;
      && s.trace <= after.trace
      && ((forall i :: |s.trace| <= i < |after.trace| ==> |HealthyAmong(after.trace[i].fleet, names)| >= cfg.floor)
          <==> |names| > cfg.floor)
  {
    var after := RunScope(s, names, FullPhase, cfg, platform).sys;
    var all := set n | n in names;
    OneAtATime(s, names, all, cfg, platform);
    if |names| > cfg.floor {
      forall i | |s.trace| <= i < |after.trace| ensures |HealthyAmong(after.trace[i].fleet, names)| >= cfg.floor {
        AllButOneHealthy(after.trace[i].fleet, names);
      }
    } else {
      assert names[0] in names;
      var i := FirstCordonSeen(s, names, cfg, platform);
      NotAllHealthy(after.trace[i].fleet, names, names[0]);
    }
  }

  // ----------------------------------------------------------- second cycle

  /**
   The journal never un-records: once a restore run has exited 0, whatever happens next under the
   same change id, further restore runs on those machines change nothing and exit 0.
   */
  lemma SecondRestoreDoesNothing(s: Sys, names: seq<string>, cfg: Config, platform: Platform,
                                 between: seq<Item>, nextCfg: Config, next: Platform)
    requires JournalOk(s.journal)
    requires ExitsZero(RunScope(s, names, RestorePhase, cfg, platform))
    ensures var later := Play(RunScope(s, names, RestorePhase, cfg, platform).sys, between);
      var again := RunScope(later, names, RestorePhase, nextCfg, next);
      again.sys == later && ExitsZero(again)
  {
    var first := RunScope(s, names, RestorePhase, cfg, platform).sys;
    ExitZeroCompletes(s, names, RestorePhase, cfg, platform);
    RunKeepsJournal(s, names, RestorePhase, cfg, platform);
    JournalInvariant(first, between);
    StillCompleted(first.journal, Play(first, between).journal, names);
    CompletedRunDoesNothing(Play(first, between), names, RestorePhase, nextCfg, next);
  }

  lemma RunKeepsJournal(s: Sys, names: seq<string>, phase: Phase, cfg: Config, platform: Platform)
    requires JournalOk(s.journal)
    ensures JournalOk(RunScope(s, names, phase, cfg, platform).sys.journal)
  {
    var run := RunOf(names, phase, cfg, platform);
    assert [] + [run] == [run];
    PlayAppend(s, [], run);
    JournalInvariant(s, [run]);
  }

  lemma StillCompleted(before: Journal, after: Journal, names: seq<string>)
    requires Grows(before, after)
    requires forall n, step :: n in names && step in RESTORE ==> Completed(before, n, step)
    ensures forall n, step :: n in names && step in RESTORE ==> Completed(after, n, step)
  {
    forall n, step | n in names && step in RESTORE ensures Completed(after, n, step) {
      assert Completed(before, n, step) && CompletedSteps(before, n) <= CompletedSteps(after, n);
    }
  }

  ghost predicate OffsHeld(t: Sys, names: seq<string>) {
    forall n :: n in names ==> n in t.fleet && (Completed(t.journal, n, DoPowerOff) ==> t.fleet[n].power == Off)
  }

  /** A shutdown run that exits 0 leaves its machines off. */
  lemma ShutdownExitZero(s: Sys, names: seq<string>, cfg: Config, platform: Platform)
    requires Obedient(platform) && OffsHeld(s, names)
    requires ExitsZero(RunScope(s, names, ShutdownPhase, cfg, platform))
    ensures var after := RunScope(s, names, ShutdownPhase, cfg, platform).sys;
      forall n :: n in names ==> n in after.fleet && after.fleet[n].power == Off
  {
    var inv := (t: Sys) => OffsHeld(t, names);
    forall t, n, k | inv(t) && n in names && StepDue(t, n, SHUTDOWN, k)
      ensures inv(Attempt(t, n, SHUTDOWN[k], cfg, platform).sys)
    {
      var a := Attempt(t, n, SHUTDOWN[k], cfg, platform);
      AttemptObedient(t, n, SHUTDOWN[k], cfg, platform);
      AttemptRecords(t, n, SHUTDOWN[k], cfg, platform);
      forall m | m in names
        ensures m in a.sys.fleet && (Completed(a.sys.journal, m, DoPowerOff) ==> a.sys.fleet[m].power == Off)
      {
        assert m in Spots(t.fleet) && m in Spots(a.sys.fleet);
        assert Spots(a.sys.fleet)[m] == SpotOf(a.sys.fleet[m]) && Spots(t.fleet)[m] == SpotOf(t.fleet[m]);
      }
    }
    RunKeeps(inv, s, names, ShutdownPhase, cfg, platform);
    ExitZeroCompletes(s, names, ShutdownPhase, cfg, platform);
    assert DoPowerOff in PhaseSteps(ShutdownPhase);
  }

  lemma NoShutdownYet(s: Sys, names: seq<string>, cfg: Config, platform: Platform)
    requires forall n, step :: step in SHUTDOWN ==> !Completed(s.journal, n, step)
    ensures forall n, step :: step in SHUTDOWN ==>
      !Completed(RunScope(s, names, RestorePhase, cfg, platform).sys.journal, n, step)
  {
    var inv := (t: Sys) => forall n, step :: step in SHUTDOWN ==> !Completed(t.journal, n, step);
    forall t, n, k | inv(t) && n in names && StepDue(t, n, RESTORE, k)
      ensures inv(Attempt(t, n, RESTORE[k], cfg, platform).sys)
    {
      AttemptRecords(t, n, RESTORE[k], cfg, platform);
      var after := Attempt(t, n, RESTORE[k], cfg, platform).sys.journal;
      forall m, step | step in SHUTDOWN ensures !Completed(after, m, step) {
        assert !Completed(t.journal, m, step) && step != RESTORE[k];
      }
    }
    RunKeeps(inv, s, names, RestorePhase, cfg, platform);
  }

  /**
   Why RestoreCompleteness asks that nothing be taken down after the first restore: machines
   restored, then shut down under the same change id, stay off whatever restore runs follow, and
   those exit 0.
   */
  lemma SecondCycleStaysDown(s: Sys, names: seq<string>, cfg: Config, platform: Platform,
                             nextCfg: Config, next: Platform, lastCfg: Config, last: Platform)
    requires JournalOk(s.journal) && Obedient(next)
    requires forall n, step :: step in SHUTDOWN ==> !Completed(s.journal, n, step)
    requires ExitsZero(RunScope(s, names, RestorePhase, cfg, platform))
    requires var up := RunScope(s, names, RestorePhase, cfg, platform).sys;
      && (forall n :: n in names ==> n in up.fleet)
      && ExitsZero(RunScope(up, names, ShutdownPhase, nextCfg, next))
    ensures var up := RunScope(s, names, RestorePhase, cfg, platform).sys;
      var down := RunScope(up, names, ShutdownPhase, nextCfg, next).sys;
      var again := RunScope(down, names, RestorePhase, lastCfg, last);
      && ExitsZero(again) && again.sys == down
      && forall n :: n in names ==> n in again.sys.fleet && again.sys.fleet[n].power == Off
  {
    var up := RunScope(s, names, RestorePhase, cfg, platform).sys;
    NoShutdownYet(s, names, cfg, platform);
    assert DoPowerOff in SHUTDOWN;
    ShutdownExitZero(up, names, nextCfg, next);
    var down := RunOf(names, ShutdownPhase, nextCfg, next);
    assert [] + [down] == [down];
    PlayAppend(up, [], down);
    SecondRestoreDoesNothing(s, names, cfg, platform, [down], lastCfg, last);
  }

  function Smoothly(step: Step, m: Machine): Machine {
    match step
    case DoCordon => m.(cordon := Cordoned)
    case DoPowerOff => m.(power := Off)
    case DoPowerOn => m.(power := On)
    case DoWaitReady => m.(ready := true, detailed := Available)
    case DoUncordon => m.(cordon := Uncordoned)
    case DoVerify => m
  }

  /** A platform on which everything works at once. */
  function Smooth(): Platform {
    (f: Fleet, n: string, step: Step) =>
      Response(f, f, Returned, if n in f then [f[n := Smoothly(step, f[n])]] else [])
  }

  lemma SmoothStep(step: Step, m: Machine)
    ensures var after := Smoothly(step, m);
      && SpotOf(after) == Moved(step, SpotOf(m)) && Placed(m, after) && StaysFit(m, after, step)
      && (step != DoVerify ==> Goal(step, after))
  {
  }

  lemma SmoothMoves(f: Fleet, n: string, step: Step)
    requires n in f
    ensures var after := f[n := Smoothly(step, f[n])];
      MovedOrNot(f, after, n, step) && OnlyTouches(f, after, n)
  {
    SmoothStep(step, f[n]);
    assert Spots(f[n := Smoothly(step, f[n])]) == Spots(f)[n := Moved(step, SpotOf(f[n]))];
  }

  lemma SmoothWorks(f: Fleet, n: string, step: Step)
    requires n in f
    ensures var r := Smooth()(f, n, step);
      Works(f, n, step, r) && AllStayFit(f[n], Fleets(r), n, step)
  {
    var after := f[n := Smoothly(step, f[n])];
    SmoothStep(step, f[n]);
    assert Fleets(Smooth()(f, n, step)) == [f, f, after];
    assert after[n] == Smoothly(step, f[n]);
  }

  lemma SmoothAnswers(f: Fleet, n: string, step: Step)
    ensures var r := Smooth()(f, n, step);
      && AllTouchOnly(f, Fleets(r), n) && RestsMoved(f, r, n, step)
      && (n in f ==> Works(f, n, step, r) && AllStayFit(f[n], Fleets(r), n, step))
  {
    if n in f {
      SmoothWorks(f, n, step);
      SmoothMoves(f, n, step);
      assert Fleets(Smooth()(f, n, step)) == [f, f, f[n := Smoothly(step, f[n])]];
    } else {
      assert Fleets(Smooth()(f, n, step)) == [f, f];
    }
  }

  lemma SmoothSucceeds()
    ensures Succeeds(Smooth()) && KeepsFit(Smooth())
  {
    forall f: Fleet, n: string, step
      ensures var r := Smooth()(f, n, step);
        && AllTouchOnly(f, Fleets(r), n) && RestsMoved(f, r, n, step)
        && (n in f ==> Works(f, n, step, r) && AllStayFit(f[n], Fleets(r), n, step))
    {
      SmoothAnswers(f, n, step);
    }
  }

  const SPARE_MACHINE := Machine("c1", "r1", 1, On, Uncordoned, true, Provisioned, Pass)

  /**
   Such a second cycle happens: a healthy machine restored, shut down and restored again under one
   change id ends powered off, with exit status 0 each time.
   */
  lemma RestoreAfterSecondShutdownFails()
    ensures var cfg := Config(EVERYTHING, 0, false);
      var start := Sys(map["m" := SPARE_MACHINE], map[], []);
      var first := RunScope(start, ["m"], RestorePhase, cfg, Smooth());
      var down := RunScope(first.sys, ["m"], ShutdownPhase, cfg, Smooth());
      var again := RunScope(down.sys, ["m"], RestorePhase, cfg, Smooth());
      && ExitsZero(first) && ExitsZero(down) && ExitsZero(again)
      && "m" in again.sys.fleet && again.sys.fleet["m"].power == Off
  {
    SmoothSucceeds();
    var cfg := Config(EVERYTHING, 0, false);
    var start := Sys(map["m" := SPARE_MACHINE], map[], []);
    assert InScope("m", SPARE_MACHINE, EVERYTHING);
    WalkFromStart(start, "m", RestorePhase, cfg, Smooth());
    OnlyOne(start, RestorePhase, cfg, Smooth());
    var up := RunScope(start, ["m"], RestorePhase, cfg, Smooth()).sys;
    NoShutdownYet(start, ["m"], cfg, Smooth());
    assert Headroom(up.fleet, EVERYTHING, "m", 0);
    WalkFromStart(up, "m", ShutdownPhase, cfg, Smooth());
    OnlyOne(up, ShutdownPhase, cfg, Smooth());
    SecondCycleStaysDown(start, ["m"], cfg, Smooth(), cfg, Smooth(), cfg, Smooth());
  }

  lemma OnlyOne(s: Sys, phase: Phase, cfg: Config, platform: Platform)
    requires MaintainFrom(s, "m", PhaseSteps(phase), 0, cfg, platform).result == MachineOk
    ensures var run := RunScope(s, ["m"], phase, cfg, platform);
      ExitsZero(run) && run.sys == MaintainFrom(s, "m", PhaseSteps(phase), 0, cfg, platform).sys
  {
    assert ["m"][1..] == [];
  }
}
