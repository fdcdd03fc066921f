/**
 What the driver moves: a machine's power and cordon. On an obedient platform a call moves its target
 or does not, whatever the driver gets to hear about it and whatever is seen on the way; readiness,
 status and hardware results of every machine come and go as they like.
 */
module NexusObedient {
  import opened NexusFleet
  import opened NexusDriver

  /** Power and cordon; a machine without a cordon status counts as uncordoned. */
  datatype Spot = Spot(power: PowerState, cordon: CordonStatus)

  function SpotOf(m: Machine): Spot {
    Spot(m.power, if m.cordon == NoCordonStatus then Uncordoned else m.cordon)
  }

  /** Where a step takes a machine; waiting and verifying take it nowhere. */
  function Moved(step: Step, p: Spot): Spot {
    match step
    case DoCordon => p.(cordon := Cordoned)
    case DoPowerOff => p.(power := Off)
    case DoPowerOn => p.(power := On)
    case DoUncordon => p.(cordon := Uncordoned)
    case DoWaitReady => p
    case DoVerify => p
  }

  /** Where the first `k` of `steps` take it. */
  function Walked(steps: seq<Step>, p: Spot, k: nat): Spot
    requires k <= |steps|
  {
    if k == 0 then p else Moved(steps[k - 1], Walked(steps, p, k - 1))
  }

  ghost function Spots(fleet: Fleet): map<string, Spot> {
    map n | n in fleet :: SpotOf(fleet[n])
  }

  ghost predicate MovedBy(before: Fleet, after: Fleet, name: string, step: Step) {
    name in before && Spots(after) == Spots(before)[name := Moved(step, SpotOf(before[name]))]
  }

  ghost predicate MovedOrNot(before: Fleet, after: Fleet, name: string, step: Step) {
    Spots(after) == Spots(before) || MovedBy(before, after, name, step)
  }

  /** Polling ends on a fleet that shows the machine at the step's goal, or gone. */
  predicate EndsPolling(step: Step, name: string, fleet: Fleet) {
    name !in fleet || Goal(step, fleet[name])
  }

  ghost predicate EndsMoved(before: Fleet, seen: seq<Fleet>, name: string, step: Step) {
    forall i :: 0 <= i < |seen| && EndsPolling(step, name, seen[i]) ==> MovedOrNot(before, seen[i], name, step)
  }

  /** Where an attempt can come to rest, the step has been taken or not; on the way there anything may be seen. */
  ghost predicate RestsMoved(before: Fleet, r: Response, name: string, step: Step) {
    && MovedOrNot(before, r.found, name, step)
    && MovedOrNot(before, LastOf(r.called, r.seen), name, step)
    && EndsMoved(before, r.seen, name, step)
  }

  /** Calls may raise, time out or be cut short, before or after taking effect; they move nothing else. */
  ghost predicate Obedient(platform: Platform) {
    forall f: Fleet, n: string, step {:trigger RestsMoved(f, platform(f, n, step), n, step)} ::
      RestsMoved(f, platform(f, n, step), n, step)
  }

  /** A machine seen at a step's goal is where the step takes it. */
  lemma AtGoal(step: Step, m: Machine)
    requires Goal(step, m)
    ensures Moved(step, SpotOf(m)) == SpotOf(m)
  {
  }

  lemma {:induction false} PolledObedient(step: Step, name: string, base: Fleet, fleet: Fleet, seen: seq<Fleet>)
    requires MovedOrNot(base, LastOf(fleet, seen), name, step) && EndsMoved(base, seen, name, step)
    ensures var o := Polled(step, name, fleet, seen);
      && MovedOrNot(base, o.fleet, name, step)
      && (o.outcome == StepOk ==> name in o.fleet && Goal(step, o.fleet[name]))
    decreases |seen|
  {
    if seen != [] && name in seen[0] && !Goal(step, seen[0][name]) {
      PolledObedient(step, name, base, seen[0], seen[1..]);
    }
  }

  lemma ObservedObedient(step: Step, name: string, fleet: Fleet, r: Response)
    requires RestsMoved(fleet, r, name, step)
    ensures var o := Observed(step, name, r);
      && MovedOrNot(fleet, o.fleet, name, step)
      && (o.outcome == StepOk ==> name in o.fleet && Goal(step, o.fleet[name]))
  {
    if step != DoVerify && r.ending == Returned {
      PolledObedient(step, name, fleet, r.called, r.seen);
    }
  }

  /** Seen at its goal, a machine was moved or had nowhere to move. */
  lemma GoalMeansMoved(before: Fleet, after: Fleet, name: string, step: Step)
    requires MovedOrNot(before, after, name, step) && name in after && Goal(step, after[name])
    ensures MovedBy(before, after, name, step)
  {
    assert name in Spots(after) && Spots(after)[name] == SpotOf(after[name]);
    AtGoal(step, after[name]);
    if Spots(after) == Spots(before) {
      assert name in Spots(before) && Spots(before)[name := Spots(before)[name]] == Spots(before);
    }
  }

  /** An attempt moves its machine by the step or not at all; recorded "ok", it did move it. */
  lemma AttemptObedient(s: Sys, name: string, step: Step, cfg: Config, platform: Platform)
    requires Obedient(platform)
    ensures var a := Attempt(s, name, step, cfg, platform);
      && MovedOrNot(s.fleet, a.sys.fleet, name, step)
      && (a.outcome == StepOk ==> MovedBy(s.fleet, a.sys.fleet, name, step))
  {
    var r := platform(s.fleet, name, step);
    assert RestsMoved(s.fleet, r, name, step);
    ObservedObedient(step, name, s.fleet, r);
    if Attempt(s, name, step, cfg, platform).outcome == StepOk {
      GoalMeansMoved(s.fleet, Observed(step, name, r).fleet, name, step);
    }
  }

  /** Machine by machine, what equal spots of two fleets mean. */
  lemma SpotsApart(before: Fleet, after: Fleet, name: string, step: Step)
    requires MovedOrNot(before, after, name, step)
    ensures after.Keys == before.Keys
    ensures forall n :: n in before && n != name ==> SpotOf(after[n]) == SpotOf(before[n])
    ensures name in before ==> SpotOf(after[name]) in {SpotOf(before[name]), Moved(step, SpotOf(before[name]))}
  {
    assert Spots(after).Keys == after.Keys && Spots(before).Keys == before.Keys;
    forall n | n in before ensures Spots(before)[n] == SpotOf(before[n]) && Spots(after)[n] == SpotOf(after[n]) {
    }
  }
}
