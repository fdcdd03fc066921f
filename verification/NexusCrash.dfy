/**
 Crash and resume. A call that was cut short or timed out may take its effect at once, late or never,
 while the driver is at another machine or not running. Power and cordon are still never more than
 one step ahead of the journal, and every way of getting a full cycle to "ok" leaves the same power
 and cordon states.
 */
module NexusCrash {
  import opened NexusFleet
  import opened NexusDriver
  import opened NexusJournal
  import opened NexusQuiet
  import opened NexusObedient

  /** `now` is where the journalled steps put the machine, or those and the next one. */
  ghost predicate InStep(start: Spot, now: Spot, completed: seq<Step>) {
    && completed <= STEPS
    && (|| now == Walked(STEPS, start, |completed|)
        || (|completed| < |STEPS| && now == Walked(STEPS, start, |completed| + 1)))
  }

  /** Machines worked on are in step; the others have not moved. */
  ghost predicate AllInStep(start: Fleet, t: Sys, names: seq<string>) {
    && t.fleet.Keys == start.Keys
    && (forall n :: n in start && n in names ==>
          InStep(SpotOf(start[n]), SpotOf(t.fleet[n]), CompletedSteps(t.journal, n)))
    && (forall n :: n in start && n !in names ==> SpotOf(t.fleet[n]) == SpotOf(start[n]))
  }

  /** Repeating a step that already took effect is harmless, so being one step ahead never becomes two. */
  lemma OneStepAhead(start: Spot, now: Spot, completed: seq<Step>)
    requires |completed| < |STEPS| && InStep(start, now, completed)
    ensures var step := STEPS[|completed|];
      InStep(start, Moved(step, now), completed) && InStep(start, Moved(step, now), completed + [step])
  {
    var k := |completed|;
    assert completed == STEPS[..k] && completed + [STEPS[k]] == STEPS[..k + 1];
    assert Walked(STEPS, start, k + 1) == Moved(STEPS[k], Walked(STEPS, start, k));
    assert Moved(STEPS[k], now) == Walked(STEPS, start, k + 1);
  }

  /**
   Where the fleet may have got to: machines worked on stay put or take the effect, late or not, of
   the step they are due; no other machine moves.
   */
  ghost predicate LateEffects(s: Sys, found: Fleet, names: seq<string>) {
    && found.Keys == s.fleet.Keys
    && forall n :: n in found ==>
         var completed := CompletedSteps(s.journal, n);
         || SpotOf(found[n]) == SpotOf(s.fleet[n])
         || (n in names && |completed| < |STEPS|
             && SpotOf(found[n]) == Moved(STEPS[|completed|], SpotOf(s.fleet[n])))
  }

  lemma LateKept(start: Fleet, t: Sys, found: Fleet, names: seq<string>)
    requires AllInStep(start, t, names) && LateEffects(t, found, names)
    ensures AllInStep(start, t.(fleet := found), names)
  {
    forall n | n in start && n in names
      ensures InStep(SpotOf(start[n]), SpotOf(found[n]), CompletedSteps(t.journal, n))
    {
      if |CompletedSteps(t.journal, n)| < |STEPS| {
        OneStepAhead(SpotOf(start[n]), SpotOf(t.fleet[n]), CompletedSteps(t.journal, n));
      }
    }
  }

  /** Where an attempt can come to rest, only late effects have happened, to its own machine or to any other. */
  ghost predicate Obeys(t: Sys, r: Response, name: string, step: Step, names: seq<string>) {
    && LateEffects(t, r.found, names)
    && LateEffects(t, LastOf(r.called, r.seen), names)
    && EndsLate(t, r.seen, name, step, names)
  }

  ghost predicate EndsLate(t: Sys, seen: seq<Fleet>, name: string, step: Step, names: seq<string>) {
    forall i :: 0 <= i < |seen| && EndsPolling(step, name, seen[i]) ==> LateEffects(t, seen[i], names)
  }

  /** The platform obeys at every attempt of the step loop from position `i`. */
  ghost predicate WalkObeys(s: Sys, name: string, i: nat, cfg: Config, platform: Platform, names: seq<string>)
    requires i <= |STEPS|
    decreases |STEPS| - i
  {
    i == |STEPS| ||
    if Completed(s.journal, name, STEPS[i]) then WalkObeys(s, name, i + 1, cfg, platform, names)
    else
      && Obeys(s, platform(s.fleet, name, STEPS[i]), name, STEPS[i], names)
      && var a := Attempt(s, name, STEPS[i], cfg, platform);
         (a.outcome == StepOk ==> WalkObeys(a.sys, name, i + 1, cfg, platform, names))
  }

  /** The platform obeys at every attempt of a full run, with or without --keep-going. */
  ghost predicate RunObeys(s: Sys, these: seq<string>, cfg: Config, platform: Platform, names: seq<string>)
    decreases |these|
  {
    these == [] || (
      && these[0] in names
      && WalkObeys(s, these[0], 0, cfg, platform, names)
      && var m := MaintainFrom(s, these[0], STEPS, 0, cfg, platform);
         (m.result == MachineOk || (m.result != MachineKilled && cfg.keepGoing) ==>
            RunObeys(m.sys, these[1..], cfg, platform, names)))
  }

  lemma {:induction false} PolledLate(t: Sys, fleet: Fleet, seen: seq<Fleet>, name: string, step: Step,
                                      names: seq<string>)
    requires LateEffects(t, LastOf(fleet, seen), names) && EndsLate(t, seen, name, step, names)
    ensures var o := Polled(step, name, fleet, seen);
      && LateEffects(t, o.fleet, names)
      && (o.outcome == StepOk ==> name in o.fleet && Goal(step, o.fleet[name]))
    decreases |seen|
  {
    if seen != [] && name in seen[0] && !Goal(step, seen[0][name]) {
      PolledLate(t, seen[0], seen[1..], name, step, names);
    }
  }

  lemma ObservedLate(t: Sys, r: Response, name: string, step: Step, names: seq<string>)
    requires Obeys(t, r, name, step, names)
    ensures var o := Observed(step, name, r);
      && LateEffects(t, o.fleet, names)
      && (o.outcome == StepOk ==> name in o.fleet && Goal(step, o.fleet[name]))
  {
    if step != DoVerify && r.ending == Returned {
      PolledLate(t, r.called, r.seen, name, step, names);
    }
  }

  /** An attempt keeps all machines in step, its own and those whose timed-out calls land meanwhile. */
  lemma AttemptInStep(start: Fleet, t: Sys, names: seq<string>, name: string, k: nat, cfg: Config, platform: Platform)
    requires AllInStep(start, t, names) && name in names && StepDue(t, name, STEPS, k)
    requires Obeys(t, platform(t.fleet, name, STEPS[k]), name, STEPS[k], names)
    ensures AllInStep(start, Attempt(t, name, STEPS[k], cfg, platform).sys, names)
  {
    var a := Attempt(t, name, STEPS[k], cfg, platform);
    ObservedLate(t, platform(t.fleet, name, STEPS[k]), name, STEPS[k], names);
    LateKept(start, t, a.sys.fleet, names);
    AttemptRecords(t, name, STEPS[k], cfg, platform);
    if a.outcome == StepOk && name in start {
      PrefixDue(CompletedSteps(t.journal, name), k);
      AtGoal(STEPS[k], a.sys.fleet[name]);
      OneStepAhead(SpotOf(start[name]), SpotOf(a.sys.fleet[name]), CompletedSteps(t.journal, name));
      assert CompletedSteps(a.sys.journal, name) == CompletedSteps(t.journal, name) + [STEPS[k]];
    }
  }

  lemma DueInStep(start: Fleet, t: Sys, names: seq<string>, name: string, i: nat, cfg: Config, platform: Platform)
    requires AllInStep(start, t, names) && name in names && StepDue(t, name, STEPS, i)
    requires Obeys(t, platform(t.fleet, name, STEPS[i]), name, STEPS[i], names)
    ensures var a := Attempt(t, name, STEPS[i], cfg, platform);
      && AllInStep(start, a.sys, names)
      && (a.outcome == StepOk ==> forall j :: 0 <= j <= i ==> Completed(a.sys.journal, name, STEPS[j]))
  {
    AttemptInStep(start, t, names, name, i, cfg, platform);
    AttemptRecords(t, name, STEPS[i], cfg, platform);
  }

  lemma {:induction false} WalkInStep(start: Fleet, t: Sys, names: seq<string>, name: string, i: nat, cfg: Config,
                                      platform: Platform)
    requires AllInStep(start, t, names) && name in names && i <= |STEPS|
    requires WalkObeys(t, name, i, cfg, platform, names)
    requires forall j :: 0 <= j < i ==> Completed(t.journal, name, STEPS[j])
    ensures AllInStep(start, MaintainFrom(t, name, STEPS, i, cfg, platform).sys, names)
    decreases |STEPS| - i
  {
    if i < |STEPS| {
      if Completed(t.journal, name, STEPS[i]) {
        WalkInStep(start, t, names, name, i + 1, cfg, platform);
      } else {
        var a := Attempt(t, name, STEPS[i], cfg, platform);
        DueInStep(start, t, names, name, i, cfg, platform);
        if a.outcome == StepOk {
          WalkInStep(start, a.sys, names, name, i + 1, cfg, platform);
        }
      }
    }
  }

  lemma {:induction false} RunInStep(start: Fleet, t: Sys, names: seq<string>, these: seq<string>, cfg: Config,
                                     platform: Platform)
    requires AllInStep(start, t, names) && RunObeys(t, these, cfg, platform, names)
    ensures AllInStep(start, RunScope(t, these, FullPhase, cfg, platform).sys, names)
    decreases |these|
  {
    if these != [] {
      var m := MaintainFrom(t, these[0], STEPS, 0, cfg, platform);
      WalkInStep(start, t, names, these[0], 0, cfg, platform);
      if m.result == MachineOk || (m.result != MachineKilled && cfg.keepGoing) {
        RunInStep(start, m.sys, names, these[1..], cfg, platform);
      }
    }
  }

  /** Full runs over some of `names` on platforms that obey throughout, and late effects in between. */
  ghost predicate ObedientHistory(s: Sys, items: seq<Item>, names: seq<string>)
    decreases |items|
  {
    items == [] || (
      && (match items[0]
          case RunOf(these, phase, cfg, platform) => phase == FullPhase && RunObeys(s, these, cfg, platform, names)
          case Drift(found) => LateEffects(s, found, names))
      && ObedientHistory(PlayItem(s, items[0]), items[1..], names))
  }

  /**
   Crash refinement: over any history of full runs under one change id, with or without
   --keep-going, each killed before a step's effect, between effect and record, or after the record,
   raising or timing out anywhere, and resumed, the power and cordon of every machine worked on are
   where its journalled steps put them or one step further; no other machine has moved.
   */
  lemma {:induction false} CrashRefinement(start: Fleet, s: Sys, items: seq<Item>, names: seq<string>)
    requires ObedientHistory(s, items, names) && AllInStep(start, s, names)
    ensures AllInStep(start, Play(s, items), names)
    decreases |items|
  {
    if items != [] {
      match items[0] {
        case RunOf(these, phase, cfg, platform) => RunInStep(start, s, names, these, cfg, platform);
        case Drift(found) => LateKept(start, s, found, names);
      }
      CrashRefinement(start, PlayItem(s, items[0]), items[1..], names);
    }
  }

  lemma ObedientObeys(start: Fleet, t: Sys, names: seq<string>, name: string, k: nat, platform: Platform)
    requires Obedient(platform) && AllInStep(start, t, names) && name in names && StepDue(t, name, STEPS, k)
    ensures Obeys(t, platform(t.fleet, name, STEPS[k]), name, STEPS[k], names)
  {
    var r := platform(t.fleet, name, STEPS[k]);
    assert RestsMoved(t.fleet, r, name, STEPS[k]);
    forall g | MovedOrNot(t.fleet, g, name, STEPS[k]) ensures LateEffects(t, g, names) {
      SpotsApart(t.fleet, g, name, STEPS[k]);
      if name in start {
        PrefixDue(CompletedSteps(t.journal, name), k);
      }
    }
  }

  lemma {:induction false} ObedientWalk(start: Fleet, t: Sys, names: seq<string>, name: string, i: nat, cfg: Config,
                                        platform: Platform)
    requires Obedient(platform) && AllInStep(start, t, names) && name in names && i <= |STEPS|
    requires forall j :: 0 <= j < i ==> Completed(t.journal, name, STEPS[j])
    ensures WalkObeys(t, name, i, cfg, platform, names)
    decreases |STEPS| - i
  {
    if i < |STEPS| {
      if Completed(t.journal, name, STEPS[i]) {
        ObedientWalk(start, t, names, name, i + 1, cfg, platform);
      } else {
        ObedientObeys(start, t, names, name, i, platform);
        var a := Attempt(t, name, STEPS[i], cfg, platform);
        DueInStep(start, t, names, name, i, cfg, platform);
        if a.outcome == StepOk {
          ObedientWalk(start, a.sys, names, name, i + 1, cfg, platform);
        }
      }
    }
  }

  /** A platform that only ever moves the target obeys throughout any run. */
  lemma {:induction false} ObedientRun(start: Fleet, t: Sys, names: seq<string>, these: seq<string>, cfg: Config,
                                       platform: Platform)
    requires Obedient(platform) && AllInStep(start, t, names) && forall n :: n in these ==> n in names
    ensures RunObeys(t, these, cfg, platform, names)
    decreases |these|
  {
    if these != [] {
      var m := MaintainFrom(t, these[0], STEPS, 0, cfg, platform);
      ObedientWalk(start, t, names, these[0], 0, cfg, platform);
      WalkInStep(start, t, names, these[0], 0, cfg, platform);
      if m.result == MachineOk || (m.result != MachineKilled && cfg.keepGoing) {
        ObedientRun(start, m.sys, names, these[1..], cfg, platform);
      }
    }
  }

  /** Every machine named is on and uncordoned; the others are where they started. */
  ghost function Cycled(start: Fleet, names: seq<string>): map<string, Spot> {
    map n | n in start :: if n in names then Spot(On, Uncordoned) else SpotOf(start[n])
  }

  lemma WholeCycle(start: Spot)
    ensures Walked(STEPS, start, |STEPS|) == Spot(On, Uncordoned)
  {
    assert STEPS[3] == DoWaitReady && STEPS[2] == DoPowerOn;
    assert Walked(STEPS, start, 3).power == On;
    assert Walked(STEPS, start, 4) == Walked(STEPS, start, 3);
    assert Walked(STEPS, start, 5) == Spot(On, Uncordoned);
  }

  lemma EndsWithVerify(completed: seq<Step>)
    requires completed <= STEPS
    requires forall step :: step in PhaseSteps(FullPhase) ==> step in completed
    ensures completed == STEPS
  {
    assert STEPS[5] == DoVerify && DoVerify in PhaseSteps(FullPhase);
    PrefixHolds(completed, STEPS, 5);
  }

  lemma CompletedIsCycled(start: Fleet, t: Sys, names: seq<string>)
    requires AllInStep(start, t, names)
    requires forall n, step :: n in names && step in PhaseSteps(FullPhase) ==> Completed(t.journal, n, step)
    ensures Spots(t.fleet) == Cycled(start, names)
  {
    forall n | n in start ensures SpotOf(t.fleet[n]) == Cycled(start, names)[n] {
      if n in names {
        EndsWithVerify(CompletedSteps(t.journal, n));
        WholeCycle(SpotOf(start[n]));
      }
    }
  }

  /** A history that ends with a full run of `names` exiting 0. */
  ghost predicate Finished(s: Sys, items: seq<Item>, names: seq<string>) {
    && items != []
    && ObedientHistory(s, items, names)
    && var last := items[|items| - 1];
       && last.RunOf? && last.names == names && last.phase == FullPhase
       && ExitsZero(RunScope(Play(s, items[..|items| - 1]), names, FullPhase, last.cfg, last.platform))
  }

  lemma LastRunCompletes(s: Sys, items: seq<Item>, names: seq<string>, cfg: Config, platform: Platform)
    requires items != [] && items[|items| - 1] == RunOf(names, FullPhase, cfg, platform)
    requires ExitsZero(RunScope(Play(s, items[..|items| - 1]), names, FullPhase, cfg, platform))
    ensures forall n, step :: n in names && step in PhaseSteps(FullPhase) ==> Completed(Play(s, items).journal, n, step)
  {
    var front := items[..|items| - 1];
    assert items == front + [RunOf(names, FullPhase, cfg, platform)];
    PlayAppend(s, front, RunOf(names, FullPhase, cfg, platform));
    ExitZeroCompletes(Play(s, front), names, FullPhase, cfg, platform);
  }

  lemma FinishedCompletes(s: Sys, items: seq<Item>, names: seq<string>)
    requires Finished(s, items, names)
    ensures forall n, step :: n in names && step in PhaseSteps(FullPhase) ==> Completed(Play(s, items).journal, n, step)
  {
    var last := items[|items| - 1];
    LastRunCompletes(s, items, names, last.cfg, last.platform);
  }

  /** It has taken every machine named through the cycle, and no other. */
  lemma FinishedIsCycled(s: Sys, items: seq<Item>, names: seq<string>)
    requires s.journal == map[] && Finished(s, items, names)
    ensures Spots(Play(s, items).fleet) == Cycled(s.fleet, names)
  {
    FinishedCompletes(s, items, names);
    CrashRefinement(s.fleet, s, items, names);
    CompletedIsCycled(s.fleet, Play(s, items), names);
  }

  /**
   However a full cycle was killed and resumed, once a run exits 0 the power and cordon of every
   machine are those any other such history leaves, an uninterrupted run on another platform
   included; and if the fleet was quiescent every machine named is healthy.
   */
  lemma ResumedEqualsUninterrupted(s: Sys, items: seq<Item>, direct: seq<Item>, names: seq<string>)
    requires s.journal == map[] && Finished(s, items, names) && Finished(s, direct, names)
    ensures Spots(Play(s, items).fleet) == Spots(Play(s, direct).fleet) == Cycled(s.fleet, names)
    ensures QuietFullHistory(s, items) ==>
      forall n :: n in names ==> n in Play(s, items).fleet && Healthy(Play(s, items).fleet[n])
  {
    FinishedIsCycled(s, items, names);
    FinishedIsCycled(s, direct, names);
    if QuietFullHistory(s, items) {
      FinishedCompletes(s, items, names);
      FullHistoryKeepsVerified(s, items);
      assert DoVerify in PhaseSteps(FullPhase);
    }
  }

  /** A single run exiting 0 on a platform that only moves its target is such a history. */
  lemma UninterruptedFinishes(s: Sys, names: seq<string>, cfg: Config, platform: Platform)
    requires s.journal == map[] && Obedient(platform)
    requires ExitsZero(RunScope(s, names, FullPhase, cfg, platform))
    ensures Finished(s, [RunOf(names, FullPhase, cfg, platform)], names)
  {
    var items := [RunOf(names, FullPhase, cfg, platform)];
    assert items[..0] == [] && items[1..] == [];
    assert Play(s, items[..0]) == s;
    ObedientRun(s.fleet, s, names, names, cfg, platform);
    assert ObedientHistory(PlayItem(s, items[0]), items[1..], names);
  }
}
