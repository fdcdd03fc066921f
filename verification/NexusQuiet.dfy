/**
 Runs on a quiescent fleet, where a machine changes only while the driver works on it:
 one machine at a time, and what exit status 0 of a restore run means.
 */
module NexusQuiet {
  import opened Ordering
  import opened NexusFleet
  import opened NexusDriver
  import opened NexusJournal

  /** Only `name` differs; how it differs is the platform's business. */
  ghost predicate OnlyTouches(before: Fleet, after: Fleet, name: string) {
    before.Keys == after.Keys && forall n :: n in before && n != name ==> after[n] == before[n]
  }

  ghost predicate AllTouchOnly(before: Fleet, seen: seq<Fleet>, name: string) {
    forall i :: 0 <= i < |seen| ==> OnlyTouches(before, seen[i], name)
  }

  /** A quiescent fleet: working on a machine leaves all others as they are. */
  ghost predicate Quiet(platform: Platform) {
    forall f: Fleet, n: string, step {:trigger AllTouchOnly(f, Fleets(platform(f, n, step)), n)} ::
      AllTouchOnly(f, Fleets(platform(f, n, step)), n)
  }

  lemma {:induction false} PolledQuiet(step: Step, name: string, base: Fleet, fleet: Fleet, seen: seq<Fleet>)
    requires OnlyTouches(base, fleet, name) && AllTouchOnly(base, seen, name)
    ensures var o := Polled(step, name, fleet, seen);
      && OnlyTouches(base, o.fleet, name) && AllTouchOnly(base, o.passed, name)
      && (o.outcome == StepOk ==> name in o.fleet && Goal(step, o.fleet[name]))
    decreases |seen|
  {
    if seen != [] && name in seen[0] && !Goal(step, seen[0][name]) {
      PolledQuiet(step, name, base, seen[0], seen[1..]);
    }
  }

  lemma ObservedQuiet(step: Step, name: string, fleet: Fleet, r: Response)
    requires AllTouchOnly(fleet, Fleets(r), name)
    ensures OnlyTouches(fleet, r.found, name) && OnlyTouches(fleet, r.called, name)
    ensures var o := Observed(step, name, r);
      && OnlyTouches(fleet, o.fleet, name) && AllTouchOnly(fleet, o.passed, name)
      && (o.outcome == StepOk ==> name in o.fleet && Goal(step, o.fleet[name]))
  {
    assert Fleets(r)[0] == r.found && Fleets(r)[1] == r.called;
    assert forall i :: 0 <= i < |r.seen| ==> Fleets(r)[i + 2] == r.seen[i];
    if step != DoVerify && r.ending == Returned {
      PolledQuiet(step, name, fleet, r.called, r.seen);
    }
  }

  lemma AttemptQuiet(s: Sys, name: string, step: Step, cfg: Config, platform: Platform)
    requires Quiet(platform)
    ensures var a := Attempt(s, name, step, cfg, platform);
      && OnlyTouches(s.fleet, a.sys.fleet, name)
      && (a.outcome == StepOk ==> name in a.sys.fleet && Goal(step, a.sys.fleet[name]))
      && s.trace <= a.sys.trace
      && (forall i :: |s.trace| <= i < |a.sys.trace| ==> OnlyTouches(s.fleet, a.sys.trace[i].fleet, name))
  {
    ObservedQuiet(step, name, s.fleet, platform(s.fleet, name, step));
  }

  // ------------------------------------------------ from the check to the call

  /** Between a check and its call at most the target has changed. */
  ghost predicate CallsQuiet(trace: seq<Event>) {
    forall i :: 0 < i < |trace| && trace[i].Called? && trace[i].step == DoPowerOff ==>
      OnlyTouches(trace[i - 1].fleet, trace[i].fleet, trace[i].target)
  }

  lemma AttemptCallsQuiet(s: Sys, name: string, step: Step, cfg: Config, platform: Platform)
    requires Quiet(platform) && CallsQuiet(s.trace)
    ensures CallsQuiet(Attempt(s, name, step, cfg, platform).sys.trace)
  {
    var t := Attempt(s, name, step, cfg, platform).sys.trace;
    var r := platform(s.fleet, name, step);
    AttemptQuiet(s, name, step, cfg, platform);
    ObservedQuiet(step, name, s.fleet, r);
    forall i | 0 < i < |t| && t[i].Called? && t[i].step == DoPowerOff
      ensures OnlyTouches(t[i - 1].fleet, t[i].fleet, t[i].target)
    {
      if i < |s.trace| {
        assert t[i] == s.trace[i] && t[i - 1] == s.trace[i - 1];
      } else {
        assert t[|s.trace|] == Seen(r.found);
        assert t[|s.trace| + 1] == Checked(name, cfg.scope, cfg.floor, true, r.found);
        assert i == |s.trace| + 2;
      }
    }
  }

  ghost predicate QuietRuns(items: seq<Item>) {
    forall i :: 0 <= i < |items| && items[i].RunOf? ==> Quiet(items[i].platform)
  }

  lemma {:induction false} HistoryCallsQuiet(s: Sys, items: seq<Item>)
    requires QuietRuns(items) && CallsQuiet(s.trace)
    ensures CallsQuiet(Play(s, items).trace)
    decreases |items|
  {
    if items != [] {
      if items[0].RunOf? {
        var RunOf(names, phase, cfg, platform) := items[0];
        var inv := (t: Sys) => CallsQuiet(t.trace);
        forall t, n, k | inv(t) && n in names && StepDue(t, n, PhaseSteps(phase), k)
          ensures inv(Attempt(t, n, PhaseSteps(phase)[k], cfg, platform).sys)
        {
          AttemptCallsQuiet(t, n, PhaseSteps(phase)[k], cfg, platform);
        }
        RunKeeps(inv, s, names, phase, cfg, platform);
      }
      HistoryCallsQuiet(PlayItem(s, items[0]), items[1..]);
    }
  }

  /**
   When working on a machine leaves the others alone, what the check saw still stands when the call
   is made: at every power-off the rack holds the floor of healthy other machines. Anything may
   happen to the fleet between runs.
   */
  lemma CallsAreSpared(s: Sys, items: seq<Item>, i: nat)
    requires s.trace == [] && QuietRuns(items)
    requires i < |Play(s, items).trace|
    requires Play(s, items).trace[i].Called? && Play(s, items).trace[i].step == DoPowerOff
    ensures i > 0 && Play(s, items).trace[i - 1].Checked?
    ensures var check, call := Play(s, items).trace[i - 1], Play(s, items).trace[i];
      && call.target in check.fleet
      && |HealthyInRack(call.fleet, EVERYTHING, RackName(check.fleet[call.target]), call.target)| >= check.floor
  {
    PowerOffsAreSpared(s, items, i);
    HistoryCallsQuiet(s, items);
    var check, call := Play(s, items).trace[i - 1], Play(s, items).trace[i];
    var rack := RackName(check.fleet[call.target]);
    assert HealthyOthers(check.fleet, EVERYTHING, call.target)
        == HealthyInRack(call.fleet, EVERYTHING, rack, call.target);
  }

  // --------------------------------------------------------- one at a time

  /** The machines watched over: the whole fleet, a rack, or whatever was healthy at the start. */
  ghost predicate AllHealthy(fleet: Fleet, watched: set<string>) {
    forall n :: n in watched ==> n in fleet && Healthy(fleet[n])
  }

  ghost predicate AtMostOneUnhealthy(fleet: Fleet, watched: set<string>) {
    exists name :: AllHealthy(fleet, watched - {name})
  }

  /** Walking one machine while the others watched over stay healthy, from `s` on. */
  ghost predicate Walking(t: Sys, s: Sys, watched: set<string>, name: string) {
    && AllHealthy(t.fleet, watched - {name})
    && CompletedSteps(t.journal, name) <= STEPS
    && (DoVerify in CompletedSteps(t.journal, name) ==> name in t.fleet && Healthy(t.fleet[name]))
    && (forall n :: n != name ==> CompletedSteps(t.journal, n) == CompletedSteps(s.journal, n))
    && s.trace <= t.trace
    && (forall i :: |s.trace| <= i < |t.trace| ==> AllHealthy(t.trace[i].fleet, watched - {name}))
  }

  lemma WalkingStep(t: Sys, s: Sys, watched: set<string>, name: string, k: nat, cfg: Config, platform: Platform)
    requires Quiet(platform) && Walking(t, s, watched, name) && StepDue(t, name, STEPS, k)
    ensures Walking(Attempt(t, name, STEPS[k], cfg, platform).sys, s, watched, name)
  {
    var a := Attempt(t, name, STEPS[k], cfg, platform);
    AttemptQuiet(t, name, STEPS[k], cfg, platform);
    AttemptRecords(t, name, STEPS[k], cfg, platform);
    PrefixDue(CompletedSteps(t.journal, name), k);
    assert DoVerify !in STEPS[..k];
    forall i | |t.trace| <= i < |a.sys.trace| ensures AllHealthy(a.sys.trace[i].fleet, watched - {name}) {
      assert OnlyTouches(t.fleet, a.sys.trace[i].fleet, name);
    }
  }

  lemma WalkedThrough(t: Sys, s: Sys, watched: set<string>, name: string)
    requires Walking(t, s, watched, name) && Completed(t.journal, name, DoVerify)
    ensures AllHealthy(t.fleet, watched + {name})
  {
  }

  lemma WalkOne(s: Sys, watched: set<string>, name: string, cfg: Config, platform: Platform)
    requires Quiet(platform) && Walking(s, s, watched, name)
    ensures var m := MaintainFrom(s, name, STEPS, 0, cfg, platform);
      && Walking(m.sys, s, watched, name)
      && (m.result == MachineOk ==> AllHealthy(m.sys.fleet, watched + {name}))
      && (m.result == MachineOk ==> forall step :: step in STEPS ==> Completed(m.sys.journal, name, step))
  {
    var inv := (t: Sys) => Walking(t, s, watched, name);
    forall t, n, k | inv(t) && n in [name] && StepDue(t, n, STEPS, k)
      ensures inv(Attempt(t, n, STEPS[k], cfg, platform).sys)
    {
      WalkingStep(t, s, watched, name, k, cfg, platform);
    }
    assert KeptBy(inv, [name], FullPhase, cfg, platform);
    MaintainKeeps(inv, s, name, FullPhase, 0, cfg, platform);
    var m := MaintainFrom(s, name, PhaseSteps(FullPhase), 0, cfg, platform);
    if m.result == MachineOk {
      assert DoVerify in PhaseSteps(FullPhase);
      WalkedThrough(m.sys, s, watched, name);
    }
  }

  /**
   Never more than one machine watched over is unhealthy; rows in order, all but the last "ok"; exit
   status 0 only when all is done and well, the machines worked on included.
   */
  ghost predicate Careful(s: Sys, names: seq<string>, watched: set<string>, run: Run) {
    && s.trace <= run.sys.trace
    && (forall i :: |s.trace| <= i < |run.sys.trace| ==> AtMostOneUnhealthy(run.sys.trace[i].fleet, watched))
    && AtMostOneUnhealthy(run.sys.fleet, watched)
    && |run.rows| <= |names|
    && (forall i :: 0 <= i < |run.rows| ==> run.rows[i].machine == names[i])
    && (forall i :: 0 <= i < |run.rows| - 1 ==> run.rows[i].result == MachineOk)
    && (ExitsZero(run) ==> |run.rows| == |names| && AllHealthy(run.sys.fleet, watched + set n | n in names))
  }

  lemma WalkIsCareful(s: Sys, watched: set<string>, name: string, t: Sys)
    requires Walking(t, s, watched, name)
    ensures AtMostOneUnhealthy(t.fleet, watched)
    ensures forall i :: |s.trace| <= i < |t.trace| ==> AtMostOneUnhealthy(t.trace[i].fleet, watched)
  {
    forall i | |s.trace| <= i < |t.trace| ensures AtMostOneUnhealthy(t.trace[i].fleet, watched) {
      assert AllHealthy(t.trace[i].fleet, watched - {name});
    }
  }

  /** Watching over more machines is watching over these. */
  lemma WatchingFewer(fleet: Fleet, watched: set<string>, more: set<string>)
    requires watched <= more && AtMostOneUnhealthy(fleet, more)
    ensures AtMostOneUnhealthy(fleet, watched)
  {
    var name :| AllHealthy(fleet, more - {name});
    assert AllHealthy(fleet, watched - {name});
  }

  lemma CarefulOneMore(s: Sys, mid: Sys, names: seq<string>, watched: set<string>, rest: Run)
    requires names != [] && Walking(mid, s, watched, names[0])
    requires Careful(mid, names[1..], watched + {names[0]}, rest)
    ensures Careful(s, names, watched, Run(rest.sys, [Row(names[0], MachineOk)] + rest.rows, rest.killed))
  {
    WalkIsCareful(s, watched, names[0], mid);
    var run := Run(rest.sys, [Row(names[0], MachineOk)] + rest.rows, rest.killed);
    forall i | |s.trace| <= i < |run.sys.trace| ensures AtMostOneUnhealthy(run.sys.trace[i].fleet, watched) {
      if i < |mid.trace| {
        assert run.sys.trace[i] == mid.trace[i];
      } else {
        WatchingFewer(run.sys.trace[i].fleet, watched, watched + {names[0]});
      }
    }
    WatchingFewer(run.sys.fleet, watched, watched + {names[0]});
    if ExitsZero(run) {
      RowsAllOk(Row(names[0], MachineOk), rest.rows);
      assert (set n | n in names) == {names[0]} + set n | n in names[1..];
    }
  }

  lemma CarefulStopped(s: Sys, mid: Sys, names: seq<string>, watched: set<string>, result: MachineResult)
    requires names != [] && Walking(mid, s, watched, names[0]) && result != MachineOk
    ensures Careful(s, names, watched, Run(mid, [], true))
    ensures Careful(s, names, watched, Run(mid, [Row(names[0], result)], false))
  {
    WalkIsCareful(s, watched, names[0], mid);
    var run := Run(mid, [Row(names[0], result)], false);
    assert !ExitsZero(run) by {
      assert run.rows[0].result == result;
    }
  }

  lemma RestUntouched(s: Sys, mid: Sys, names: seq<string>, watched: set<string>)
    requires names != [] && Distinct(names) && Walking(mid, s, watched, names[0])
    requires forall n :: n in names ==> CompletedSteps(s.journal, n) == []
    ensures Distinct(names[1..]) && forall n :: n in names[1..] ==> CompletedSteps(mid.journal, n) == []
  {
    forall n | n in names[1..] ensures n != names[0] {
      var i :| 0 <= i < |names[1..]| && names[1..][i] == n;
      assert names[i + 1] != names[0];
    }
  }

  lemma CarefulNone(s: Sys, watched: set<string>, cfg: Config, platform: Platform)
    requires AllHealthy(s.fleet, watched)
    ensures Careful(s, [], watched, RunScope(s, [], FullPhase, cfg, platform))
  {
    assert AllHealthy(s.fleet, watched - {""});
    assert watched + (set n | n in []) == watched;
  }

  /**
   A full run without --keep-going, machines new to the journal, on a quiescent fleet: of the
   machines healthy at the start never more than one is unhealthy; the rows cover the first
   machines in order and all but the last are "ok"; and exit status 0 means every machine was done
   and all are healthy, those worked on included.
   */
  lemma {:induction false} OneAtATime(s: Sys, names: seq<string>, watched: set<string>, cfg: Config, platform: Platform)
    requires Quiet(platform) && AllHealthy(s.fleet, watched) && !cfg.keepGoing && Distinct(names)
    requires forall n :: n in names ==> CompletedSteps(s.journal, n) == []
    ensures Careful(s, names, watched, RunScope(s, names, FullPhase, cfg, platform))
    decreases |names|
  {
    if names == [] {
      CarefulNone(s, watched, cfg, platform);
    } else {
      var m := MaintainFrom(s, names[0], PhaseSteps(FullPhase), 0, cfg, platform);
      assert Walking(s, s, watched, names[0]);
      WalkOne(s, watched, names[0], cfg, platform);
      assert names[0..] == names;
      RunUnfolds(s, names, 0, FullPhase, cfg, platform);
      if m.result == MachineOk {
        RestUntouched(s, m.sys, names, watched);
        OneAtATime(m.sys, names[1..], watched + {names[0]}, cfg, platform);
        CarefulOneMore(s, m.sys, names, watched, RunScope(m.sys, names[1..], FullPhase, cfg, platform));
      } else {
        CarefulStopped(s, m.sys, names, watched, m.result);
      }
    }
  }

  // ---------------------------------------------------------------- restore

  lemma GrowsKept(s: Sys, names: seq<string>, phase: Phase, cfg: Config, platform: Platform)
    ensures KeptBy((t: Sys) => Grows(s.journal, t.journal), names, phase, cfg, platform)
  {
    var grows := (t: Sys) => Grows(s.journal, t.journal);
    forall t, n, k | grows(t) && n in names && StepDue(t, n, PhaseSteps(phase), k)
      ensures grows(Attempt(t, n, PhaseSteps(phase)[k], cfg, platform).sys)
    {
      AttemptRecords(t, n, PhaseSteps(phase)[k], cfg, platform);
    }
  }

  lemma RunGrows(s: Sys, names: seq<string>, phase: Phase, cfg: Config, platform: Platform)
    ensures Grows(s.journal, RunScope(s, names, phase, cfg, platform).sys.journal)
  {
    GrowsKept(s, names, phase, cfg, platform);
    RunKeeps((t: Sys) => Grows(s.journal, t.journal), s, names, phase, cfg, platform);
  }

  lemma MachineOkCompletes(s: Sys, name: string, phase: Phase, cfg: Config, platform: Platform)
    requires MaintainFrom(s, name, PhaseSteps(phase), 0, cfg, platform).result == MachineOk
    ensures forall step :: step in PhaseSteps(phase) ==>
      Completed(MaintainFrom(s, name, PhaseSteps(phase), 0, cfg, platform).sys.journal, name, step)
  {
    GrowsKept(s, [name], phase, cfg, platform);
    MaintainKeeps((t: Sys) => Grows(s.journal, t.journal), s, name, phase, 0, cfg, platform);
  }

  lemma RowsAllOk(first: Row, rest: seq<Row>)
    requires forall i :: 0 <= i < |[first] + rest| ==> ([first] + rest)[i].result == MachineOk
    ensures first.result == MachineOk
    ensures forall i :: 0 <= i < |rest| ==> rest[i].result == MachineOk
  {
    assert ([first] + rest)[0] == first;
    assert forall i :: 0 <= i < |rest| ==> rest[i] == ([first] + rest)[i + 1];
  }

  /** An exit status 0 is made of an "ok" first machine and an exit status 0 for the rest. */
  lemma ExitZeroSplits(s: Sys, names: seq<string>, phase: Phase, cfg: Config, platform: Platform)
    requires names != [] && ExitsZero(RunScope(s, names, phase, cfg, platform))
    ensures var m := MaintainFrom(s, names[0], PhaseSteps(phase), 0, cfg, platform);
      && m.result == MachineOk
      && ExitsZero(RunScope(m.sys, names[1..], phase, cfg, platform))
      && RunScope(s, names, phase, cfg, platform).sys == RunScope(m.sys, names[1..], phase, cfg, platform).sys
  {
    var run := RunScope(s, names, phase, cfg, platform);
    var m := MaintainFrom(s, names[0], PhaseSteps(phase), 0, cfg, platform);
    assert names[0..] == names;
    RunUnfolds(s, names, 0, phase, cfg, platform);
    if m.result != MachineKilled && (m.result == MachineOk || cfg.keepGoing) {
      RowsAllOk(Row(names[0], m.result), RunScope(m.sys, names[1..], phase, cfg, platform).rows);
    } else {
      assert [Row(names[0], m.result)] + [] == [Row(names[0], m.result)];
      RowsAllOk(Row(names[0], m.result), []);
    }
  }

  /** Exit status 0 means every step of the phase is in the journal for every machine of the scope. */
  lemma {:induction false} ExitZeroCompletes(s: Sys, names: seq<string>, phase: Phase, cfg: Config, platform: Platform)
    requires ExitsZero(RunScope(s, names, phase, cfg, platform))
    ensures forall n, step :: n in names && step in PhaseSteps(phase) ==>
      Completed(RunScope(s, names, phase, cfg, platform).sys.journal, n, step)
    decreases |names|
  {
    if names != [] {
      var m := MaintainFrom(s, names[0], PhaseSteps(phase), 0, cfg, platform);
      var after := RunScope(s, names, phase, cfg, platform).sys;
      ExitZeroSplits(s, names, phase, cfg, platform);
      MachineOkCompletes(s, names[0], phase, cfg, platform);
      ExitZeroCompletes(m.sys, names[1..], phase, cfg, platform);
      RunGrows(m.sys, names[1..], phase, cfg, platform);
      forall n, step | n in names && step in PhaseSteps(phase) ensures Completed(after.journal, n, step) {
        if n == names[0] {
          assert Completed(m.sys.journal, n, step);
          assert CompletedSteps(m.sys.journal, n) <= CompletedSteps(after.journal, n);
        } else {
          assert n in names[1..];
        }
      }
    }
  }

  ghost predicate Verified(journal: Journal, name: string) {
    Completed(journal, name, DoVerify)
  }

  /** What the journal calls verified is healthy now. */
  ghost predicate VerifiedHealthy(s: Sys) {
    forall n :: Verified(s.journal, n) ==> n in s.fleet && Healthy(s.fleet[n])
  }

  lemma VerifiedIsRestored(completed: seq<Step>)
    requires WellOrdered(completed) && DoVerify in completed
    ensures forall step :: step in RESTORE ==> step in completed
  {
    var done := Only(completed, RESTORE);
    FilterElements(completed, (s: Step) => s in RESTORE);
    assert RESTORE[3] == DoVerify;
    PrefixHolds(done, RESTORE, 3);
    assert done == RESTORE;
  }

  lemma RestoreStep(s: Sys, name: string, k: nat, cfg: Config, platform: Platform)
    requires Quiet(platform) && JournalOk(s.journal) && StepDue(s, name, RESTORE, k)
    ensures var a := Attempt(s, name, RESTORE[k], cfg, platform);
      && JournalOk(a.sys.journal)
      && !Verified(s.journal, name)
      && OnlyTouches(s.fleet, a.sys.fleet, name)
      && (forall n :: Verified(s.journal, n) ==> Verified(a.sys.journal, n))
      && (Verified(a.sys.journal, name) ==> name in a.sys.fleet && Healthy(a.sys.fleet[name]))
      && (forall n :: n != name ==> CompletedSteps(a.sys.journal, n) == CompletedSteps(s.journal, n))
  {
    AttemptQuiet(s, name, RESTORE[k], cfg, platform);
    AttemptRecords(s, name, RESTORE[k], cfg, platform);
    AppendKeepsOrder(CompletedSteps(s.journal, name), RestorePhase, k);
    assert RESTORE[k] in RESTORE;
    if Verified(s.journal, name) {
      VerifiedIsRestored(CompletedSteps(s.journal, name));
    }
  }

  /** What a restore run keeps, looking back to its start at `s`. */
  ghost predicate Restoring(t: Sys, s: Sys) {
    && JournalOk(t.journal)
    && t.fleet.Keys == s.fleet.Keys
    && (forall n :: Verified(s.journal, n) ==> Verified(t.journal, n))
    && (forall n :: Verified(s.journal, n) && n in s.fleet ==> t.fleet[n] == s.fleet[n])
    && (forall n :: Verified(t.journal, n) && !Verified(s.journal, n) ==> n in t.fleet && Healthy(t.fleet[n]))
  }

  lemma RestoringStep(t: Sys, s: Sys, name: string, k: nat, cfg: Config, platform: Platform)
    requires Quiet(platform) && Restoring(t, s) && StepDue(t, name, RESTORE, k)
    ensures Restoring(Attempt(t, name, RESTORE[k], cfg, platform).sys, s)
  {
    RestoreStep(t, name, k, cfg, platform);
  }

  /** A restore run never touches what was verified before it, and only verifies what is healthy. */
  lemma RestoreRunKeeps(s: Sys, names: seq<string>, cfg: Config, platform: Platform)
    requires Quiet(platform) && JournalOk(s.journal)
    ensures Restoring(RunScope(s, names, RestorePhase, cfg, platform).sys, s)
  {
    var inv := (t: Sys) => Restoring(t, s);
    forall t, n, k | inv(t) && n in names && StepDue(t, n, RESTORE, k)
      ensures inv(Attempt(t, n, RESTORE[k], cfg, platform).sys)
    {
      RestoringStep(t, s, n, k, cfg, platform);
    }
    RunKeeps(inv, s, names, RestorePhase, cfg, platform);
  }

  /**
   Exactly when exit status 0 of a restore run can be believed: every machine of its scope is
   healthy afterwards if and only if those the journal already called verified were healthy before.
   */
  lemma RestoreExitZero(s: Sys, names: seq<string>, cfg: Config, platform: Platform)
    requires Quiet(platform) && JournalOk(s.journal)
    requires forall n :: n in names ==> n in s.fleet
    requires ExitsZero(RunScope(s, names, RestorePhase, cfg, platform))
    ensures var after := RunScope(s, names, RestorePhase, cfg, platform).sys;
      (forall n :: n in names ==> n in after.fleet && Healthy(after.fleet[n]))
      <==> (forall n :: n in names && Verified(s.journal, n) ==> Healthy(s.fleet[n]))
  {
    var after := RunScope(s, names, RestorePhase, cfg, platform).sys;
    RestoreRunKeeps(s, names, cfg, platform);
    ExitZeroCompletes(s, names, RestorePhase, cfg, platform);
    assert DoVerify in PhaseSteps(RestorePhase);
    forall n | n in names
      ensures Verified(after.journal, n)
    {
    }
  }

  ghost predicate QuietRestoreRuns(items: seq<Item>) {
    forall i :: 0 <= i < |items| ==> items[i].RunOf? && items[i].phase == RestorePhase && Quiet(items[i].platform)
  }

  ghost predicate NothingRestored(journal: Journal) {
    forall n, step :: step in RESTORE ==> !Completed(journal, n, step)
  }

  lemma {:induction false} RestoreRunsKeepVerifiedHealthy(s: Sys, items: seq<Item>)
    requires JournalOk(s.journal) && VerifiedHealthy(s) && QuietRestoreRuns(items)
    ensures JournalOk(Play(s, items).journal) && VerifiedHealthy(Play(s, items))
    ensures Play(s, items).fleet.Keys == s.fleet.Keys
    decreases |items|
  {
    if items != [] {
      RestoreRunKeeps(s, items[0].names, items[0].cfg, items[0].platform);
      RestoreRunsKeepVerifiedHealthy(PlayItem(s, items[0]), items[1..]);
    }
  }

  /**
   Wherever taking machines down stopped, if nothing was restored before and only restore runs
   follow, then a restore run that exits 0 leaves every machine of its scope healthy: on,
   uncordoned, ready.
   */
  lemma RestoreCompleteness(s: Sys, ups: seq<Item>, names: seq<string>, cfg: Config, platform: Platform)
    requires JournalOk(s.journal) && NothingRestored(s.journal)
    requires QuietRestoreRuns(ups) && Quiet(platform)
    requires forall n :: n in names ==> n in s.fleet
    requires ExitsZero(RunScope(Play(s, ups), names, RestorePhase, cfg, platform))
    ensures var after := RunScope(Play(s, ups), names, RestorePhase, cfg, platform).sys;
      forall n :: n in names ==> n in after.fleet && Healthy(after.fleet[n])
  {
    assert VerifiedHealthy(s) by {
      assert DoVerify in RESTORE;
    }
    RestoreRunsKeepVerifiedHealthy(s, ups);
    RestoreExitZero(Play(s, ups), names, cfg, platform);
  }

  // ------------------------------------------------------------ full cycles

  /** Full runs on a quiescent fleet, and changes between runs that leave healthy machines healthy. */
  ghost predicate QuietFullHistory(s: Sys, items: seq<Item>)
    decreases |items|
  {
    items == [] || (
      && (match items[0]
          case RunOf(_, phase, _, platform) => phase == FullPhase && Quiet(platform)
          case Drift(found) => forall n :: n in s.fleet && Healthy(s.fleet[n]) ==> n in found && Healthy(found[n]))
      && QuietFullHistory(PlayItem(s, items[0]), items[1..]))
  }

  ghost predicate CycleOk(t: Sys) {
    VerifiedHealthy(t) && forall n :: CompletedSteps(t.journal, n) <= STEPS
  }

  lemma CycleOrderKept(t: Sys, name: string, k: nat, cfg: Config, platform: Platform)
    requires CompletedSteps(t.journal, name) <= STEPS && StepDue(t, name, STEPS, k)
    ensures var a := Attempt(t, name, STEPS[k], cfg, platform);
      && CompletedSteps(a.sys.journal, name) <= STEPS
      && (Completed(a.sys.journal, name, DoVerify) ==> a.outcome == StepOk && STEPS[k] == DoVerify)
  {
    AttemptRecords(t, name, STEPS[k], cfg, platform);
    PrefixDue(CompletedSteps(t.journal, name), k);
    assert DoVerify !in STEPS[..k];
  }

  lemma CycleStep(t: Sys, name: string, k: nat, cfg: Config, platform: Platform)
    requires Quiet(platform) && CycleOk(t) && StepDue(t, name, STEPS, k)
    ensures CycleOk(Attempt(t, name, STEPS[k], cfg, platform).sys)
  {
    var a := Attempt(t, name, STEPS[k], cfg, platform);
    AttemptQuiet(t, name, STEPS[k], cfg, platform);
    AttemptRecords(t, name, STEPS[k], cfg, platform);
    CycleOrderKept(t, name, k, cfg, platform);
    forall m | m != name ensures CompletedSteps(a.sys.journal, m) <= STEPS {
      assert CompletedSteps(a.sys.journal, m) == CompletedSteps(t.journal, m);
    }
    forall m | Verified(a.sys.journal, m) ensures m in a.sys.fleet && Healthy(a.sys.fleet[m]) {
      if m != name {
        assert Verified(t.journal, m) && a.sys.fleet[m] == t.fleet[m];
      }
    }
  }

  lemma FullRunKeepsVerified(s: Sys, names: seq<string>, cfg: Config, platform: Platform)
    requires Quiet(platform) && CycleOk(s)
    ensures CycleOk(RunScope(s, names, FullPhase, cfg, platform).sys)
  {
    var inv := (t: Sys) => CycleOk(t);
    forall t, n, k | inv(t) && n in names && StepDue(t, n, STEPS, k)
      ensures inv(Attempt(t, n, STEPS[k], cfg, platform).sys)
    {
      CycleStep(t, n, k, cfg, platform);
    }
    RunKeeps(inv, s, names, FullPhase, cfg, platform);
  }

  lemma {:induction false} FullHistoryKeepsVerified(s: Sys, items: seq<Item>)
    requires CycleOk(s) && QuietFullHistory(s, items)
    ensures CycleOk(Play(s, items))
    decreases |items|
  {
    if items != [] {
      if items[0].RunOf? {
        FullRunKeepsVerified(s, items[0].names, items[0].cfg, items[0].platform);
      }
      FullHistoryKeepsVerified(PlayItem(s, items[0]), items[1..]);
    }
  }

  /**
   Full runs under one change id on a quiescent fleet, killed and resumed anywhere: once one exits
   0, every machine of its scope is healthy.
   */
  lemma FullCompleteness(s: Sys, items: seq<Item>, names: seq<string>, cfg: Config, platform: Platform)
    requires s.journal == map[] && QuietFullHistory(s, items) && Quiet(platform)
    requires ExitsZero(RunScope(Play(s, items), names, FullPhase, cfg, platform))
    ensures var after := RunScope(Play(s, items), names, FullPhase, cfg, platform).sys;
      forall n :: n in names ==> n in after.fleet && Healthy(after.fleet[n])
  {
    FullHistoryKeepsVerified(s, items);
    FullRunKeepsVerified(Play(s, items), names, cfg, platform);
    ExitZeroCompletes(Play(s, items), names, FullPhase, cfg, platform);
    assert DoVerify in PhaseSteps(FullPhase);
  }

  ghost predicate ShutdownRunsOrDrifts(items: seq<Item>) {
    forall i :: 0 <= i < |items| ==> items[i].RunOf? ==> items[i].phase == ShutdownPhase
  }

  /** Shutdown runs, killed anywhere and on any fleet, record no restore step. */
  lemma {:induction false} ShutdownRestoresNothing(s: Sys, items: seq<Item>)
    requires NothingRestored(s.journal) && ShutdownRunsOrDrifts(items)
    ensures NothingRestored(Play(s, items).journal)
    decreases |items|
  {
    if items != [] {
      if items[0].RunOf? {
        var RunOf(names, phase, cfg, platform) := items[0];
        var inv := (t: Sys) => NothingRestored(t.journal);
        forall t, n, k | inv(t) && n in names && StepDue(t, n, SHUTDOWN, k)
          ensures inv(Attempt(t, n, SHUTDOWN[k], cfg, platform).sys)
        {
          AttemptRecords(t, n, SHUTDOWN[k], cfg, platform);
          var after := Attempt(t, n, SHUTDOWN[k], cfg, platform).sys.journal;
          forall m, step | step in RESTORE ensures !Completed(after, m, step) {
            assert !Completed(t.journal, m, step) && step != SHUTDOWN[k];
          }
        }
        RunKeeps(inv, s, names, phase, cfg, platform);
      }
      ShutdownRestoresNothing(PlayItem(s, items[0]), items[1..]);
    }
  }

  /** A run whose steps are all in the journal does nothing, and says "ok" for every machine. */
  lemma {:induction false} CompletedRunDoesNothing(s: Sys, names: seq<string>, phase: Phase, cfg: Config,
                                                   platform: Platform)
    requires forall n, step :: n in names && step in PhaseSteps(phase) ==> Completed(s.journal, n, step)
    ensures var run := RunScope(s, names, phase, cfg, platform);
      run.sys == s && ExitsZero(run) && |run.rows| == |names|
    decreases |names|
  {
    if names != [] {
      WalkSkips(s, names[0], phase, 0, cfg, platform);
      CompletedRunDoesNothing(s, names[1..], phase, cfg, platform);
    }
  }

  lemma {:induction false} WalkSkips(s: Sys, name: string, phase: Phase, i: nat, cfg: Config, platform: Platform)
    requires i <= |PhaseSteps(phase)|
    requires forall step :: step in PhaseSteps(phase) ==> Completed(s.journal, name, step)
    ensures MaintainFrom(s, name, PhaseSteps(phase), i, cfg, platform) == MachineRun(s, MachineOk)
    decreases |PhaseSteps(phase)| - i
  {
    if i < |PhaseSteps(phase)| {
      assert PhaseSteps(phase)[i] in PhaseSteps(phase);
      WalkSkips(s, name, phase, i + 1, cfg, platform);
    }
  }
}
