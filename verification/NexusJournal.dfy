/** What every history of runs keeps: the journal's order, and headroom before each power-off. */
module NexusJournal {
  import opened Ordering
  import opened NexusFleet
  import opened NexusDriver

  /** A history: runs of the command on one journal, and changes to the fleet while no run is active. */
  datatype Item =
    | RunOf(names: seq<string>, phase: Phase, cfg: Config, platform: Platform)
    | Drift(found: Fleet)

  ghost function PlayItem(s: Sys, item: Item): Sys {
    match item
    case RunOf(names, phase, cfg, platform) => RunScope(s, names, phase, cfg, platform).sys
    case Drift(found) => s.(fleet := found)
  }

  ghost function Play(s: Sys, items: seq<Item>): Sys
    decreases |items|
  {
    if items == [] then s else Play(PlayItem(s, items[0]), items[1..])
  }

  lemma {:induction false} PlayAppend(s: Sys, items: seq<Item>, last: Item)
    ensures Play(s, items + [last]) == PlayItem(Play(s, items), last)
    decreases |items|
  {
    if items == [] {
      assert (items + [last])[0] == last && (items + [last])[1..] == [];
      assert Play(PlayItem(s, last), []) == PlayItem(s, last);
    } else {
      assert (items + [last])[1..] == items[1..] + [last];
      PlayAppend(PlayItem(s, items[0]), items[1..], last);
    }
  }

  // -------------------------------------------------------------- induction

  /** The step loop reaches position `k` and does not skip it. */
  predicate StepDue(s: Sys, name: string, steps: seq<Step>, k: int) {
    && 0 <= k < |steps|
    && (forall j :: 0 <= j < k ==> Completed(s.journal, name, steps[j]))
    && !Completed(s.journal, name, steps[k])
  }

  ghost predicate KeptBy(inv: Sys -> bool, names: seq<string>, phase: Phase, cfg: Config, platform: Platform) {
    forall s, n, k :: inv(s) && n in names && StepDue(s, n, PhaseSteps(phase), k) ==>
      inv(Attempt(s, n, PhaseSteps(phase)[k], cfg, platform).sys)
  }

  lemma AttemptRecords(s: Sys, name: string, step: Step, cfg: Config, platform: Platform)
    ensures var a := Attempt(s, name, step, cfg, platform);
      && (forall n :: n != name ==> CompletedSteps(a.sys.journal, n) == CompletedSteps(s.journal, n))
      && CompletedSteps(a.sys.journal, name) ==
         if a.outcome == StepOk && !Completed(s.journal, name, step)
         then CompletedSteps(s.journal, name) + [step]
         else CompletedSteps(s.journal, name)
  {
  }

  /** To show a property of a machine's walk, show it of the steps that are due. */
  lemma {:induction false} MaintainKeeps(inv: Sys -> bool, s: Sys, name: string, phase: Phase, i: nat, cfg: Config,
                                         platform: Platform)
    requires inv(s) && KeptBy(inv, [name], phase, cfg, platform)
    requires i <= |PhaseSteps(phase)|
    requires forall j :: 0 <= j < i ==> Completed(s.journal, name, PhaseSteps(phase)[j])
    ensures var m := MaintainFrom(s, name, PhaseSteps(phase), i, cfg, platform);
      && inv(m.sys)
      && (m.result == MachineOk ==> forall step :: step in PhaseSteps(phase) ==> Completed(m.sys.journal, name, step))
    decreases |PhaseSteps(phase)| - i
  {
    var steps := PhaseSteps(phase);
    if i == |steps| {
    } else if Completed(s.journal, name, steps[i]) {
      MaintainKeeps(inv, s, name, phase, i + 1, cfg, platform);
    } else {
      assert StepDue(s, name, steps, i);
      assert name in [name];
      var a := Attempt(s, name, steps[i], cfg, platform);
      AttemptRecords(s, name, steps[i], cfg, platform);
      if a.outcome == StepOk {
        MaintainKeeps(inv, a.sys, name, phase, i + 1, cfg, platform);
      }
    }
  }

  lemma {:induction false} RunKeeps(inv: Sys -> bool, s: Sys, names: seq<string>, phase: Phase, cfg: Config,
                                    platform: Platform)
    requires inv(s) && KeptBy(inv, names, phase, cfg, platform)
    ensures inv(RunScope(s, names, phase, cfg, platform).sys)
    decreases |names|
  {
    if names != [] {
      assert KeptBy(inv, [names[0]], phase, cfg, platform);
      MaintainKeeps(inv, s, names[0], phase, 0, cfg, platform);
      var m := MaintainFrom(s, names[0], PhaseSteps(phase), 0, cfg, platform);
      if m.result != MachineKilled && (m.result == MachineOk || cfg.keepGoing) {
        assert KeptBy(inv, names[1..], phase, cfg, platform);
        RunKeeps(inv, m.sys, names[1..], phase, cfg, platform);
      }
    }
  }

  // ---------------------------------------------------------------- journal

  ghost function Only(completed: seq<Step>, steps: seq<Step>): seq<Step> {
    Filter(completed, (s: Step) => s in steps)
  }

  /** No repeats, and within each half of the cycle the steps stand in order with none left out. */
  ghost predicate WellOrdered(completed: seq<Step>) {
    Distinct(completed) && Only(completed, SHUTDOWN) <= SHUTDOWN && Only(completed, RESTORE) <= RESTORE
  }

  ghost predicate JournalOk(journal: Journal) {
    forall n :: WellOrdered(CompletedSteps(journal, n))
  }

  ghost predicate Grows(before: Journal, after: Journal) {
    forall n :: CompletedSteps(before, n) <= CompletedSteps(after, n)
  }

  lemma PrefixHolds(done: seq<Step>, whole: seq<Step>, k: nat)
    requires done <= whole && Distinct(whole) && k < |whole|
    ensures k < |done| <==> whole[k] in done
  {
    if k < |done| {
      assert done[k] == whole[k];
    } else {
      assert forall j :: 0 <= j < |done| ==> done[j] == whole[j] && whole[j] != whole[k];
    }
  }

  lemma PrefixReaches(done: seq<Step>, whole: seq<Step>, k: nat)
    requires done <= whole && Distinct(whole) && k < |whole|
    requires forall j :: 0 <= j < k ==> whole[j] in done
    requires whole[k] !in done
    ensures |done| == k
  {
    PrefixHolds(done, whole, k);
    if k > 0 {
      PrefixHolds(done, whole, k - 1);
    }
  }

  lemma NextInOrder(completed: seq<Step>, half: seq<Step>, k: nat)
    requires Distinct(half) && Only(completed, half) <= half && k < |half|
    requires forall j :: 0 <= j < k ==> half[j] in completed
    requires half[k] !in completed
    ensures Only(completed + [half[k]], half) == half[..k + 1]
  {
    var inHalf := (s: Step) => s in half;
    var done := Only(completed, half);
    FilterElements(completed, inHalf);
    FilterAppend(completed, [half[k]], inHalf);
    PrefixReaches(done, half, k);
    assert done == half[..k];
  }

  lemma OutsideHalf(completed: seq<Step>, half: seq<Step>, step: Step)
    requires step !in half
    ensures Only(completed + [step], half) == Only(completed, half)
  {
    FilterAppend(completed, [step], (s: Step) => s in half);
  }

  /** Past the first `skip` of its steps a phase runs through one half of the cycle. */
  lemma PlaceInHalf(phase: Phase, k: nat) returns (half: seq<Step>, other: seq<Step>, skip: nat)
    requires k < |PhaseSteps(phase)|
    ensures (half, other) == (SHUTDOWN, RESTORE) || (half, other) == (RESTORE, SHUTDOWN)
    ensures skip <= k < skip + |half| && Distinct(half)
    ensures forall j :: skip <= j <= k ==> PhaseSteps(phase)[j] == half[j - skip]
    ensures half[k - skip] !in other
  {
    skip := if phase == FullPhase && k >= 2 then 2 else 0;
    if phase == RestorePhase || skip == 2 {
      half, other := RESTORE, SHUTDOWN;
    } else {
      half, other := SHUTDOWN, RESTORE;
    }
  }

  lemma HalfGoesOn(completed: seq<Step>, half: seq<Step>, other: seq<Step>, at: nat)
    requires (half, other) == (SHUTDOWN, RESTORE) || (half, other) == (RESTORE, SHUTDOWN)
    requires WellOrdered(completed) && at < |half| && Distinct(half) && half[at] !in other && half[at] !in completed
    requires forall j :: 0 <= j < at ==> half[j] in completed
    ensures WellOrdered(completed + [half[at]])
  {
    var after := completed + [half[at]];
    NextInOrder(completed, half, at);
    OutsideHalf(completed, other, half[at]);
    assert Only(after, half) <= half && Only(after, other) <= other;
    assert Distinct(after);
  }

  lemma DueInHalf(completed: seq<Step>, phase: Phase, k: nat) returns (half: seq<Step>, other: seq<Step>, at: nat)
    requires k < |PhaseSteps(phase)| && PhaseSteps(phase)[k] !in completed
    requires forall j :: 0 <= j < k ==> PhaseSteps(phase)[j] in completed
    ensures (half, other) == (SHUTDOWN, RESTORE) || (half, other) == (RESTORE, SHUTDOWN)
    ensures at < |half| && Distinct(half) && half[at] == PhaseSteps(phase)[k]
    ensures half[at] !in other && half[at] !in completed
    ensures forall j :: 0 <= j < at ==> half[j] in completed
  {
    var skip;
    half, other, skip := PlaceInHalf(phase, k);
    at := k - skip;
    assert PhaseSteps(phase)[k] == half[at];
    forall j | 0 <= j < at ensures half[j] in completed {
      assert PhaseSteps(phase)[j + skip] == half[j];
    }
  }

  lemma AppendKeepsOrder(completed: seq<Step>, phase: Phase, k: nat)
    requires WellOrdered(completed) && k < |PhaseSteps(phase)|
    requires forall j :: 0 <= j < k ==> PhaseSteps(phase)[j] in completed
    requires PhaseSteps(phase)[k] !in completed
    ensures WellOrdered(completed + [PhaseSteps(phase)[k]])
  {
    var half, other, at := DueInHalf(completed, phase, k);
    HalfGoesOn(completed, half, other, at);
  }

  /** One item of a history, whatever it is. */
  lemma ItemKeepsJournal(s: Sys, item: Item)
    requires JournalOk(s.journal)
    ensures JournalOk(PlayItem(s, item).journal) && Grows(s.journal, PlayItem(s, item).journal)
  {
    if item.RunOf? {
      var RunOf(names, phase, cfg, platform) := item;
      var inv := (t: Sys) => JournalOk(t.journal) && Grows(s.journal, t.journal);
      forall t, n, k | inv(t) && n in names && StepDue(t, n, PhaseSteps(phase), k)
        ensures inv(Attempt(t, n, PhaseSteps(phase)[k], cfg, platform).sys)
      {
        AttemptRecords(t, n, PhaseSteps(phase)[k], cfg, platform);
        AppendKeepsOrder(CompletedSteps(t.journal, n), phase, k);
      }
      RunKeeps(inv, s, names, phase, cfg, platform);
    }
  }

  /**
   Whatever the fleet and the platform do, over any mix of full, shutdown and restore runs,
   killed and resumed anywhere: completed lists only grow, never repeat a step, and keep each
   half of the cycle in order.
   */
  lemma {:induction false} JournalInvariant(s: Sys, items: seq<Item>)
    requires JournalOk(s.journal)
    ensures JournalOk(Play(s, items).journal) && Grows(s.journal, Play(s, items).journal)
    decreases |items|
  {
    if items != [] {
      ItemKeepsJournal(s, items[0]);
      JournalInvariant(PlayItem(s, items[0]), items[1..]);
    }
  }

  /** A step is listed as completed exactly when the log says it once ended "ok". */
  ghost predicate LogAgrees(journal: Journal) {
    forall n, step :: n in journal ==> (step in journal[n].completed <==> LogLine(step, LogOk) in journal[n].log)
  }

  /** The log only grows, so nothing that happened is forgotten. */
  ghost predicate LogGrows(before: Journal, after: Journal) {
    forall n :: n in before ==> n in after && before[n].log <= after[n].log
  }

  lemma RecordLogs(journal: Journal, name: string, step: Step, result: LogResult)
    requires LogAgrees(journal)
    ensures LogAgrees(Recorded(journal, name, step, result)) && LogGrows(journal, Recorded(journal, name, step, result))
  {
    var after := Recorded(journal, name, step, result);
    var before := if name in journal then journal[name] else Entry([], []);
    assert after[name].log == before.log + [LogLine(step, result)];
    forall st ensures st in after[name].completed <==> LogLine(st, LogOk) in after[name].log {
      assert LogLine(st, LogOk) in after[name].log <==>
        LogLine(st, LogOk) in before.log || LogLine(st, LogOk) == LogLine(step, result);
    }
  }

  /** Over any history, the log and the completed lists tell the same story. */
  lemma {:induction false} LogTellsAll(s: Sys, items: seq<Item>)
    requires LogAgrees(s.journal)
    ensures LogAgrees(Play(s, items).journal) && LogGrows(s.journal, Play(s, items).journal)
    decreases |items|
  {
    if items != [] {
      if items[0].RunOf? {
        var RunOf(names, phase, cfg, platform) := items[0];
        var inv := (t: Sys) => LogAgrees(t.journal) && LogGrows(s.journal, t.journal);
        forall t, n, k | inv(t) && n in names && StepDue(t, n, PhaseSteps(phase), k)
          ensures inv(Attempt(t, n, PhaseSteps(phase)[k], cfg, platform).sys)
        {
          AttemptLogs(t, n, PhaseSteps(phase)[k], cfg, platform);
        }
        RunKeeps(inv, s, names, phase, cfg, platform);
      }
      LogTellsAll(PlayItem(s, items[0]), items[1..]);
    }
  }

  /** An attempt adds one line with its outcome, unless the process was killed first. */
  lemma AttemptLogs(s: Sys, name: string, step: Step, cfg: Config, platform: Platform)
    requires LogAgrees(s.journal)
    ensures var a := Attempt(s, name, step, cfg, platform);
      && LogAgrees(a.sys.journal) && LogGrows(s.journal, a.sys.journal)
      && (a.outcome == StepKilled ==> a.sys.journal == s.journal)
      && (a.outcome != StepKilled ==>
            var was := if name in s.journal then s.journal[name].log else [];
            && name in a.sys.journal
            && (a.outcome == StepOk ==> a.sys.journal[name].log == was + [LogLine(step, LogOk)])
            && (a.outcome == StepFailed ==> a.sys.journal[name].log == was + [LogLine(step, LogFailed)])
            && (a.outcome == StepError ==> a.sys.journal[name].log == was + [LogLine(step, LogError)])
            && (a.outcome == StepBlocked ==> a.sys.journal[name].log == was + [LogLine(step, LogBlocked)]))
  {
    var a := Attempt(s, name, step, cfg, platform);
    if a.outcome != StepKilled {
      RecordLogs(s.journal, name, step, ResultOf(a.outcome));
    }
  }

  ghost predicate FullRunsOnly(items: seq<Item>) {
    forall i :: 0 <= i < |items| ==> items[i].RunOf? ==> items[i].phase == FullPhase
  }

  /** Under full runs alone, a completed list is an initial part of the cycle. */
  lemma {:induction false} FullRunsWalkTheCycle(s: Sys, items: seq<Item>, name: string)
    requires FullRunsOnly(items)
    requires CompletedSteps(s.journal, name) <= STEPS
    ensures CompletedSteps(Play(s, items).journal, name) <= STEPS
    decreases |items|
  {
    if items != [] {
      if items[0].RunOf? {
        var RunOf(names, phase, cfg, platform) := items[0];
        var inv := (t: Sys) => CompletedSteps(t.journal, name) <= STEPS;
        forall t, n, k | inv(t) && n in names && StepDue(t, n, STEPS, k)
          ensures inv(Attempt(t, n, STEPS[k], cfg, platform).sys)
        {
          AttemptRecords(t, n, STEPS[k], cfg, platform);
          if n == name {
            PrefixDue(CompletedSteps(t.journal, n), k);
          }
        }
        RunKeeps(inv, s, names, phase, cfg, platform);
      }
      FullRunsWalkTheCycle(PlayItem(s, items[0]), items[1..], name);
    }
  }

  lemma PrefixDue(completed: seq<Step>, k: nat)
    requires completed <= STEPS && k < |STEPS|
    requires forall j :: 0 <= j < k ==> STEPS[j] in completed
    requires STEPS[k] !in completed
    ensures completed == STEPS[..k] && completed + [STEPS[k]] == STEPS[..k + 1]
  {
    PrefixReaches(completed, STEPS, k);
  }

  // --------------------------------------------------------------- headroom

  /** A passed check of the machine called; the fleet may have moved on since. */
  ghost predicate Answers(check: Event, call: Event) {
    && check.Checked? && check.passed && call.Called?
    && check.target == call.target
    && Headroom(check.fleet, check.scope, call.target, check.floor)
  }

  /** Each power-off call directly follows its check, with nothing in between. */
  ghost predicate ChecksPrecede(trace: seq<Event>) {
    forall i :: 0 <= i < |trace| && trace[i].Called? && trace[i].step == DoPowerOff ==>
      i > 0 && Answers(trace[i - 1], trace[i])
  }

  /** A check in the trace says what the fleet could spare, and a failed one stops the power-off. */
  ghost predicate ChecksHonest(trace: seq<Event>) {
    forall i :: 0 <= i < |trace| && trace[i].Checked? ==>
      (trace[i].passed <==> Headroom(trace[i].fleet, trace[i].scope, trace[i].target, trace[i].floor))
  }

  lemma AppendPrecedes(trace: seq<Event>, event: Event)
    requires ChecksPrecede(trace)
    requires event.Called? && event.step == DoPowerOff ==> trace != [] && Answers(trace[|trace| - 1], event)
    ensures ChecksPrecede(trace + [event])
  {
    var longer := trace + [event];
    assert longer[|trace|] == event;
    forall i | 0 <= i < |longer| && longer[i].Called? && longer[i].step == DoPowerOff
      ensures i > 0 && Answers(longer[i - 1], longer[i])
    {
      if i < |trace| {
        assert longer[i] == trace[i] && longer[i - 1] == trace[i - 1];
      }
    }
  }

  lemma AppendHonest(trace: seq<Event>, event: Event)
    requires ChecksHonest(trace)
    requires event.Checked? ==> (event.passed <==> Headroom(event.fleet, event.scope, event.target, event.floor))
    ensures ChecksHonest(trace + [event])
  {
  }

  lemma AppendEvent(trace: seq<Event>, event: Event)
    requires ChecksPrecede(trace) && ChecksHonest(trace)
    requires event.Called? && event.step == DoPowerOff ==> trace != [] && Answers(trace[|trace| - 1], event)
    requires event.Checked? ==> (event.passed <==> Headroom(event.fleet, event.scope, event.target, event.floor))
    ensures ChecksPrecede(trace + [event]) && ChecksHonest(trace + [event])
  {
    AppendPrecedes(trace, event);
    AppendHonest(trace, event);
  }

  lemma AppendSeen(trace: seq<Event>, fleets: seq<Fleet>)
    requires ChecksPrecede(trace) && ChecksHonest(trace)
    ensures ChecksPrecede(trace + SeenEvents(fleets)) && ChecksHonest(trace + SeenEvents(fleets))
  {
  }

  lemma AttemptChecksFirst(s: Sys, name: string, step: Step, cfg: Config, platform: Platform)
    requires ChecksPrecede(s.trace) && ChecksHonest(s.trace)
    ensures var t := Attempt(s, name, step, cfg, platform).sys.trace;
      ChecksPrecede(t) && ChecksHonest(t)
  {
    var r := platform(s.fleet, name, step);
    var spare := Headroom(r.found, cfg.scope, name, cfg.floor);
    var check := Checked(name, cfg.scope, cfg.floor, spare, r.found);
    var found := s.trace + [Seen(r.found)];
    AppendEvent(s.trace, Seen(r.found));
    AppendEvent(found, check);
    if step != DoPowerOff || spare {
      var checked := Noted(found, step == DoPowerOff, check);
      if HasCall(step) {
        AppendEvent(checked, Called(step, name, r.called));
      }
      var called := Noted(checked, HasCall(step), Called(step, name, r.called));
      AppendSeen(called, Observed(step, name, r).passed);
    }
  }

  /** Over any history on any fleet: no power-off without its check, and every check is honest. */
  lemma {:induction false} HeadroomAtEveryPowerOff(s: Sys, items: seq<Item>)
    requires ChecksPrecede(s.trace) && ChecksHonest(s.trace)
    ensures ChecksPrecede(Play(s, items).trace) && ChecksHonest(Play(s, items).trace)
    decreases |items|
  {
    if items != [] {
      if items[0].RunOf? {
        var RunOf(names, phase, cfg, platform) := items[0];
        var inv := (t: Sys) => ChecksPrecede(t.trace) && ChecksHonest(t.trace);
        forall t, n, k | inv(t) && n in names && StepDue(t, n, PhaseSteps(phase), k)
          ensures inv(Attempt(t, n, PhaseSteps(phase)[k], cfg, platform).sys)
        {
          AttemptChecksFirst(t, n, PhaseSteps(phase)[k], cfg, platform);
        }
        RunKeeps(inv, s, names, phase, cfg, platform);
      }
      HeadroomAtEveryPowerOff(PlayItem(s, items[0]), items[1..]);
    }
  }

  /** So the check before every power-off saw the floor held in the target's rack of the whole fleet. */
  lemma PowerOffsAreSpared(s: Sys, items: seq<Item>, i: nat)
    requires s.trace == []
    requires i < |Play(s, items).trace|
    requires Play(s, items).trace[i].Called? && Play(s, items).trace[i].step == DoPowerOff
    ensures i > 0 && Play(s, items).trace[i - 1].Checked?
    ensures var check := Play(s, items).trace[i - 1];
      && check.target == Play(s, items).trace[i].target && check.target in check.fleet
      && |HealthyOthers(check.fleet, EVERYTHING, check.target)| >= check.floor
  {
    HeadroomAtEveryPowerOff(s, items);
    var check := Play(s, items).trace[i - 1];
    HeadroomWidens(check.fleet, check.scope, check.target, check.floor);
  }
}
