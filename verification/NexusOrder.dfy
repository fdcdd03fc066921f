/**
 Histories of the same run: without --keep-going a machine is only touched once all before it are
 done, so what holds of one run holds of any number of them, killed and resumed anywhere.
 */
module NexusOrder {
  import opened Ordering
  import opened NexusFleet
  import opened NexusDriver
  import opened NexusJournal
  import opened NexusQuiet
  import opened NexusSuccess

  /** What holds of `t` when the first `u` machines are done for good. */
  ghost predicate InOrder(inv: (Sys, nat) -> bool, names: seq<string>, phase: Phase, cfg: Config, platform: Platform) {
    && (forall t, u: nat :: inv(t, u) ==> u <= |names|)
    && (forall t, u: nat, j, step :: inv(t, u) && 0 <= j < u <= |names| && step in PhaseSteps(phase) ==>
          Completed(t.journal, names[j], step))
    && (forall t, u: nat :: inv(t, u) && u < |names| ==>
          var m := MaintainFrom(t, names[u], PhaseSteps(phase), 0, cfg, platform);
          inv(m.sys, if m.result == MachineOk then u + 1 else u))
  }

  /** To show a property of a run, show it of the walk of the first machine not done. */
  lemma {:induction false} RunInOrder(inv: (Sys, nat) -> bool, s: Sys, names: seq<string>, k: nat, u: nat, phase: Phase,
                                      cfg: Config, platform: Platform) returns (v: nat)
    requires InOrder(inv, names, phase, cfg, platform) && !cfg.keepGoing
    requires inv(s, u) && k <= u <= |names|
    ensures inv(RunScope(s, names[k..], phase, cfg, platform).sys, v)
    decreases |names| - k
  {
    v := u;
    if k < |names| {
      RunAt(s, names, k, phase, cfg, platform);
      if k < u {
        WalkSkips(s, names[k], phase, 0, cfg, platform);
        v := RunInOrder(inv, s, names, k + 1, u, phase, cfg, platform);
      } else {
        var m := MaintainFrom(s, names[k], PhaseSteps(phase), 0, cfg, platform);
        assert inv(m.sys, if m.result == MachineOk then u + 1 else u);
        if m.result == MachineOk {
          v := RunInOrder(inv, m.sys, names, k + 1, u + 1, phase, cfg, platform);
        }
      }
    }
  }

  /** The same run again and again, without --keep-going, on a quiescent fleet. */
  ghost predicate SameRun(item: Item, names: seq<string>, phase: Phase) {
    item.RunOf? && item.names == names && item.phase == phase && !item.cfg.keepGoing && Quiet(item.platform)
  }

  // --------------------------------------------------------- one at a time

  /** The first `u` machines are done; of those watched over at most the next one is not healthy, nor was earlier. */
  ghost predicate CarefulAt(t: Sys, s: Sys, names: seq<string>, watched: set<string>, u: nat) {
    && u <= |names|
    && (forall j, step :: 0 <= j < u && step in STEPS ==> Completed(t.journal, names[j], step))
    && (forall j :: u < j < |names| ==> CompletedSteps(t.journal, names[j]) == [])
    && (u < |names| ==> MidWay(t, names[u]))
    && AllHealthy(t.fleet, if u < |names| then watched - {names[u]} else watched)
    && s.trace <= t.trace
    && (forall i :: |s.trace| <= i < |t.trace| ==> AtMostOneUnhealthy(t.trace[i].fleet, watched))
  }

  /** Some way into the cycle, and healthy if all of it is recorded. */
  ghost predicate MidWay(t: Sys, name: string) {
    && CompletedSteps(t.journal, name) <= STEPS
    && (DoVerify in CompletedSteps(t.journal, name) ==> name in t.fleet && Healthy(t.fleet[name]))
  }

  lemma CarefulWalk(t: Sys, s: Sys, names: seq<string>, watched: set<string>, u: nat, cfg: Config, platform: Platform)
    requires Quiet(platform) && Distinct(names) && u < |names| && CarefulAt(t, s, names, watched, u)
    ensures var m := MaintainFrom(t, names[u], PhaseSteps(FullPhase), 0, cfg, platform);
      CarefulAt(m.sys, s, names, watched, if m.result == MachineOk then u + 1 else u)
  {
    var m := MaintainFrom(t, names[u], PhaseSteps(FullPhase), 0, cfg, platform);
    WalkOne(t, watched, names[u], cfg, platform);
    WalkIsCareful(t, watched, names[u], m.sys);
    assert forall j :: 0 <= j < |names| && j != u ==> names[j] != names[u];
    forall i | |s.trace| <= i < |m.sys.trace| ensures AtMostOneUnhealthy(m.sys.trace[i].fleet, watched) {
      if i < |t.trace| {
        assert m.sys.trace[i] == t.trace[i];
      }
    }
  }

  ghost predicate SameFullRuns(s: Sys, items: seq<Item>, names: seq<string>)
    decreases |items|
  {
    items == [] || (
      && (match items[0]
          case RunOf(_, _, _, _) => SameRun(items[0], names, FullPhase)
          case Drift(found) => forall n :: n in s.fleet && Healthy(s.fleet[n]) ==> n in found && Healthy(found[n]))
      && SameFullRuns(PlayItem(s, items[0]), items[1..], names))
  }

  lemma CarefulRun(t: Sys, s: Sys, names: seq<string>, watched: set<string>, u: nat, cfg: Config, platform: Platform)
    returns (v: nat)
    requires Quiet(platform) && Distinct(names) && !cfg.keepGoing && CarefulAt(t, s, names, watched, u)
    ensures CarefulAt(RunScope(t, names, FullPhase, cfg, platform).sys, s, names, watched, v)
  {
    var inv := (t: Sys, u: nat) => CarefulAt(t, s, names, watched, u);
    forall t, u: nat | inv(t, u) && u < |names|
      ensures var m := MaintainFrom(t, names[u], PhaseSteps(FullPhase), 0, cfg, platform);
        inv(m.sys, if m.result == MachineOk then u + 1 else u)
    {
      CarefulWalk(t, s, names, watched, u, cfg, platform);
    }
    assert names[0..] == names;
    v := RunInOrder(inv, t, names, 0, u, FullPhase, cfg, platform);
  }

  lemma {:induction false} CarefulHistory(t: Sys, s: Sys, items: seq<Item>, names: seq<string>, watched: set<string>,
                                          u: nat) returns (v: nat)
    requires Distinct(names) && CarefulAt(t, s, names, watched, u) && SameFullRuns(t, items, names)
    ensures CarefulAt(Play(t, items), s, names, watched, v)
    decreases |items|
  {
    v := u;
    if items != [] {
      if items[0].RunOf? {
        v := CarefulRun(t, s, names, watched, u, items[0].cfg, items[0].platform);
      }
      v := CarefulHistory(PlayItem(t, items[0]), s, items[1..], names, watched, v);
    }
  }

  /**
   One at a time, over any history of full runs without --keep-going on the same machines, killed and
   resumed anywhere: of the machines healthy at the start never more than one is unhealthy.
   */
  lemma OneAtATimeThroughout(s: Sys, items: seq<Item>, names: seq<string>, watched: set<string>)
    requires Distinct(names) && AllHealthy(s.fleet, watched) && SameFullRuns(s, items, names)
    requires forall n :: n in names ==> CompletedSteps(s.journal, n) == []
    ensures var after := Play(s, items);
      && s.trace <= after.trace
      && AtMostOneUnhealthy(after.fleet, watched)
      && (forall i :: |s.trace| <= i < |after.trace| ==> AtMostOneUnhealthy(after.trace[i].fleet, watched))
  {
    var v := CarefulHistory(s, s, items, names, watched, 0);
    var after := Play(s, items);
    if v < |names| {
      assert AllHealthy(after.fleet, watched - {names[v]});
    } else {
      assert AllHealthy(after.fleet, watched - {""});
    }
  }

  // --------------------------------------------------------------- shutdown

  /**
   The first `u` machines are down for good and the floor let each of them go; beyond the next one
   nothing was touched, now or earlier.
   */
  ghost predicate FrontAt(t: Sys, s: Sys, names: seq<string>, floor: nat, u: nat) {
    && u <= Allowance(names, floor) < |names|
    && t.fleet.Keys == s.fleet.Keys
    && (forall j, step :: 0 <= j < u && step in SHUTDOWN ==> Completed(t.journal, names[j], step))
    && (forall n :: n in names[..u] ==> n in t.fleet && t.fleet[n].power == Off)
    && (forall n :: n in s.fleet && n !in names[..u] && n != names[u] ==> t.fleet[n] == s.fleet[n])
    && !Completed(t.journal, names[u], DoPowerOff)
    && (forall j :: u < j < |names| ==> CompletedSteps(t.journal, names[j]) == [])
    && SparedSince(s, t, s.fleet, names, Allowance(names, floor) + 1)
  }

  lemma HealthyIsToCome(found: Fleet, t: Sys, s: Sys, names: seq<string>, scope: Scope, floor: nat, u: nat,
                        rack: string, n: string)
    requires HealthyRack(s.fleet, names, scope, rack) && FrontAt(t, s, names, floor, u)
    requires OnlyTouches(t.fleet, found, names[u]) && n in found && n != names[u]
    requires InScope(n, found[n], scope) && Healthy(found[n])
    ensures n in Tail(names, u + 1)
  {
    assert n in s.fleet && found[n] == t.fleet[n];
    assert n !in names[..u];
    NotYetDown(names, u, n);
  }

  /** With `u` machines down, the gate sees at most those still to come. */
  lemma GateCounts(found: Fleet, t: Sys, s: Sys, names: seq<string>, scope: Scope, floor: nat, u: nat, rack: string)
    requires HealthyRack(s.fleet, names, scope, rack) && FrontAt(t, s, names, floor, u)
    requires OnlyTouches(t.fleet, found, names[u]) && Headroom(found, scope, names[u], floor)
    ensures |names| - u - 1 >= floor
  {
    forall n | n in HealthyOthers(found, scope, names[u]) ensures n in Tail(names, u + 1) {
      HealthyIsToCome(found, t, s, names, scope, floor, u, rack, n);
    }
    SubsetSize(HealthyOthers(found, scope, names[u]), Tail(names, u + 1));
    TailSize(names, u + 1);
  }

  lemma FrontSpared(f: Fleet, t: Sys, s: Sys, names: seq<string>, scope: Scope, floor: nat, u: nat, rack: string)
    requires HealthyRack(s.fleet, names, scope, rack) && FrontAt(t, s, names, floor, u)
    requires OnlyTouches(t.fleet, f, names[u])
    ensures Spared(f, s.fleet, names, Allowance(names, floor) + 1)
  {
    var top := Allowance(names, floor);
    forall n | n in names[top + 1..] ensures n in f && n in s.fleet && f[n] == s.fleet[n] {
      var i :| 0 <= i < |names| - top - 1 && names[top + 1..][i] == n;
      assert n == names[top + 1 + i] && n in names;
      assert n !in names[..u] && n != names[u];
    }
  }

  lemma FrontTrace(t: Sys, s: Sys, names: seq<string>, u: nat, step: Step, floor: nat, cfg: Config,
                   platform: Platform, rack: string)
    requires HealthyRack(s.fleet, names, cfg.scope, rack) && Quiet(platform) && FrontAt(t, s, names, floor, u)
    ensures SparedSince(s, Attempt(t, names[u], step, cfg, platform).sys, s.fleet, names, Allowance(names, floor) + 1)
  {
    var after := Attempt(t, names[u], step, cfg, platform).sys;
    AttemptQuiet(t, names[u], step, cfg, platform);
    forall i | |t.trace| <= i < |after.trace|
      ensures Spared(after.trace[i].fleet, s.fleet, names, Allowance(names, floor) + 1)
    {
      FrontSpared(after.trace[i].fleet, t, s, names, cfg.scope, floor, u, rack);
    }
    SparedChain(s, t, after, s.fleet, names, Allowance(names, floor) + 1);
  }

  lemma FrontStays(t: Sys, after: Sys, s: Sys, names: seq<string>, floor: nat, u: nat)
    requires Distinct(names) && FrontAt(t, s, names, floor, u) && OnlyTouches(t.fleet, after.fleet, names[u])
    requires OthersSame(t.journal, after.journal, names[u]) && !Completed(after.journal, names[u], DoPowerOff)
    requires SparedSince(s, after, s.fleet, names, Allowance(names, floor) + 1)
    ensures FrontAt(after, s, names, floor, u)
  {
    NotYetDown(names, u, names[u]);
    assert names[u..][0] == names[u];
    assert forall j :: 0 <= j < |names| && j != u ==> names[j] != names[u];
  }

  /** An attempt leaves the rest untouched, whatever comes of it. */
  lemma FrontAttempt(t: Sys, s: Sys, names: seq<string>, u: nat, step: Step, floor: nat, cfg: Config,
                     platform: Platform, rack: string)
    requires HealthyRack(s.fleet, names, cfg.scope, rack) && Quiet(platform) && FrontAt(t, s, names, floor, u)
    requires step in SHUTDOWN && !Completed(t.journal, names[u], step)
    ensures var a := Attempt(t, names[u], step, cfg, platform);
      && SparedSince(s, a.sys, s.fleet, names, Allowance(names, floor) + 1)
      && (step != DoPowerOff || a.outcome != StepOk ==> FrontAt(a.sys, s, names, floor, u))
  {
    var a := Attempt(t, names[u], step, cfg, platform);
    FrontTrace(t, s, names, u, step, floor, cfg, platform, rack);
    AttemptQuiet(t, names[u], step, cfg, platform);
    AttemptRecords(t, names[u], step, cfg, platform);
    if step != DoPowerOff || a.outcome != StepOk {
      FrontStays(t, a.sys, s, names, floor, u);
    }
  }

  lemma FrontShift(t: Sys, after: Sys, s: Sys, names: seq<string>, floor: nat, u: nat)
    requires Distinct(names) && floor >= 1 && FrontAt(t, s, names, floor, u) && |names| - u - 1 >= floor
    requires OnlyTouches(t.fleet, after.fleet, names[u]) && names[u] in after.fleet
    requires after.fleet[names[u]].power == Off
    requires OthersSame(t.journal, after.journal, names[u])
    requires forall step :: step in SHUTDOWN ==> Completed(after.journal, names[u], step)
    requires SparedSince(s, after, s.fleet, names, Allowance(names, floor) + 1)
    ensures FrontAt(after, s, names, floor, u + 1)
  {
    assert names[..u + 1] == names[..u] + [names[u]];
    assert forall j :: 0 <= j < |names| && j != u ==> names[j] != names[u];
  }

  /** A recorded power-off moves the front on by one, within what the floor allows. */
  lemma FrontMoves(t: Sys, s: Sys, names: seq<string>, u: nat, floor: nat, cfg: Config, platform: Platform,
                   rack: string)
    requires HealthyRack(s.fleet, names, cfg.scope, rack) && Quiet(platform) && FrontAt(t, s, names, floor, u)
    requires Completed(t.journal, names[u], DoCordon) && cfg.floor == floor >= 1
    requires Attempt(t, names[u], DoPowerOff, cfg, platform).outcome == StepOk
    ensures FrontAt(Attempt(t, names[u], DoPowerOff, cfg, platform).sys, s, names, floor, u + 1)
  {
    var r := platform(t.fleet, names[u], DoPowerOff);
    var a := Attempt(t, names[u], DoPowerOff, cfg, platform);
    FrontAttempt(t, s, names, u, DoPowerOff, floor, cfg, platform, rack);
    AttemptQuiet(t, names[u], DoPowerOff, cfg, platform);
    AttemptRecords(t, names[u], DoPowerOff, cfg, platform);
    assert AllTouchOnly(t.fleet, Fleets(r), names[u]);
    ObservedQuiet(DoPowerOff, names[u], t.fleet, r);
    GateCounts(r.found, t, s, names, cfg.scope, floor, u, rack);
    FrontShift(t, a.sys, s, names, floor, u);
  }

  lemma FrontPowerOff(t: Sys, s: Sys, names: seq<string>, u: nat, floor: nat, cfg: Config, platform: Platform,
                      rack: string)
    requires HealthyRack(s.fleet, names, cfg.scope, rack) && Quiet(platform) && FrontAt(t, s, names, floor, u)
    requires Completed(t.journal, names[u], DoCordon) && cfg.floor == floor >= 1
    ensures var m := MaintainFrom(t, names[u], SHUTDOWN, 1, cfg, platform);
      FrontAt(m.sys, s, names, floor, if m.result == MachineOk then u + 1 else u)
  {
    var a := Attempt(t, names[u], DoPowerOff, cfg, platform);
    FrontAttempt(t, s, names, u, DoPowerOff, floor, cfg, platform, rack);
    assert MaintainFrom(a.sys, names[u], SHUTDOWN, 2, cfg, platform) == MachineRun(a.sys, MachineOk);
    if a.outcome == StepOk {
      FrontMoves(t, s, names, u, floor, cfg, platform, rack);
    }
  }

  lemma FrontWalk(t: Sys, s: Sys, names: seq<string>, u: nat, floor: nat, cfg: Config, platform: Platform, rack: string)
    requires HealthyRack(s.fleet, names, cfg.scope, rack) && Quiet(platform) && FrontAt(t, s, names, floor, u)
    requires cfg.floor == floor >= 1
    ensures var m := MaintainFrom(t, names[u], PhaseSteps(ShutdownPhase), 0, cfg, platform);
      FrontAt(m.sys, s, names, floor, if m.result == MachineOk then u + 1 else u)
  {
    if Completed(t.journal, names[u], DoCordon) {
      FrontPowerOff(t, s, names, u, floor, cfg, platform, rack);
    } else {
      var a := Attempt(t, names[u], DoCordon, cfg, platform);
      FrontAttempt(t, s, names, u, DoCordon, floor, cfg, platform, rack);
      AttemptRecords(t, names[u], DoCordon, cfg, platform);
      if a.outcome == StepOk {
        FrontPowerOff(a.sys, s, names, u, floor, cfg, platform, rack);
      }
    }
  }

  lemma FrontRun(t: Sys, s: Sys, names: seq<string>, u: nat, floor: nat, cfg: Config, platform: Platform, rack: string)
    returns (v: nat)
    requires HealthyRack(s.fleet, names, cfg.scope, rack) && Quiet(platform) && FrontAt(t, s, names, floor, u)
    requires cfg.floor == floor >= 1 && !cfg.keepGoing
    ensures FrontAt(RunScope(t, names, ShutdownPhase, cfg, platform).sys, s, names, floor, v)
  {
    var inv := (t: Sys, u: nat) => FrontAt(t, s, names, floor, u);
    forall t, u: nat | inv(t, u) && u < |names|
      ensures var m := MaintainFrom(t, names[u], PhaseSteps(ShutdownPhase), 0, cfg, platform);
        inv(m.sys, if m.result == MachineOk then u + 1 else u)
    {
      FrontWalk(t, s, names, u, floor, cfg, platform, rack);
    }
    assert names[0..] == names;
    v := RunInOrder(inv, t, names, 0, u, ShutdownPhase, cfg, platform);
  }

  ghost predicate SameShutdownRuns(items: seq<Item>, names: seq<string>, cfg: Config) {
    forall i :: 0 <= i < |items| ==> SameRun(items[i], names, ShutdownPhase) && items[i].cfg == cfg
  }

  lemma {:induction false} FrontHistory(t: Sys, s: Sys, items: seq<Item>, names: seq<string>, u: nat, floor: nat,
                                        cfg: Config, rack: string) returns (v: nat)
    requires HealthyRack(s.fleet, names, cfg.scope, rack) && FrontAt(t, s, names, floor, u)
    requires cfg.floor == floor >= 1 && !cfg.keepGoing && SameShutdownRuns(items, names, cfg)
    ensures FrontAt(Play(t, items), s, names, floor, v)
    decreases |items|
  {
    v := u;
    if items != [] {
      v := FrontRun(t, s, names, u, floor, cfg, items[0].platform, rack);
      v := FrontHistory(PlayItem(t, items[0]), s, items[1..], names, v, floor, cfg, rack);
    }
  }

  lemma FrontAtStart(s: Sys, names: seq<string>, scope: Scope, floor: nat, rack: string)
    requires HealthyRack(s.fleet, names, scope, rack) && names != [] && floor >= 1
    requires forall n :: n in names ==> CompletedSteps(s.journal, n) == []
    ensures FrontAt(s, s, names, floor, 0)
  {
    assert names[..0] == [] && names[0] in names;
  }

  /** Untouched machines from position `k` on are healthy throughout. */
  lemma SparedCount(s: Sys, after: Sys, names: seq<string>, scope: Scope, rack: string, k: nat)
    requires HealthyRack(s.fleet, names, scope, rack) && k <= |names| && SparedSince(s, after, s.fleet, names, k)
    ensures forall i :: |s.trace| <= i < |after.trace| ==> |HealthyAmong(after.trace[i].fleet, names)| >= |names| - k
  {
    forall i | |s.trace| <= i < |after.trace| ensures |HealthyAmong(after.trace[i].fleet, names)| >= |names| - k {
      SparedStayHealthy(after.trace[i].fleet, s.fleet, names, scope, rack, k);
    }
  }

  lemma ShutdownTrail(s: Sys, items: seq<Item>, names: seq<string>, floor: nat, cfg: Config, rack: string)
    requires HealthyRack(s.fleet, names, cfg.scope, rack) && SameShutdownRuns(items, names, cfg)
    requires forall n :: n in names ==> CompletedSteps(s.journal, n) == []
    requires names != [] && cfg.floor == floor >= 1
    ensures SparedSince(s, Play(s, items), s.fleet, names, Allowance(names, floor) + 1)
  {
    if items != [] {
      assert SameRun(items[0], names, ShutdownPhase);
      FrontAtStart(s, names, cfg.scope, floor, rack);
      var v := FrontHistory(s, s, items, names, 0, floor, cfg, rack);
    }
  }

  /**
   The bound of ExactShutdown needs no call to work: over any history of the same shutdown run
   without --keep-going, killed, raising or timing out anywhere on a quiescent fleet, a rack of n
   healthy machines never has fewer than min(n, f) - 1 of them healthy.
   */
  lemma ShutdownNeverLower(s: Sys, items: seq<Item>, names: seq<string>, cfg: Config, rack: string)
    requires HealthyRack(s.fleet, names, cfg.scope, rack) && SameShutdownRuns(items, names, cfg)
    requires forall n :: n in names ==> CompletedSteps(s.journal, n) == []
    ensures var after := Play(s, items);
      var least := (if |names| < cfg.floor then |names| else cfg.floor) - 1;
      forall i :: |s.trace| <= i < |after.trace| ==> |HealthyAmong(after.trace[i].fleet, names)| >= least
  {
    var after := Play(s, items);
    if names == [] || cfg.floor < 1 {
      forall i | |s.trace| <= i < |after.trace| ensures |HealthyAmong(after.trace[i].fleet, names)| >= 0 {
      }
    } else {
      ShutdownTrail(s, items, names, cfg.floor, cfg, rack);
      SparedCount(s, after, names, cfg.scope, rack, Allowance(names, cfg.floor) + 1);
    }
  }
}
