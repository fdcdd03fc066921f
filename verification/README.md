# Cloud maintenance and onboarding scripts: a verified model

Six pieces of the automation scripts that change or gate live infrastructure, modelled in Dafny
with proofs of what they are for.

- **Bare metal maintenance** (`Nexus*.dfy`). The journalled driver that walks machines through
  cordon, power off, power on, wait ready, uncordon, verify. `NexusDriver` has the driver twice: as
  functions over fleet, journal and event trace, and as classes and methods with the script's loops,
  proved equal. The platform is a function from the fleet, the machine and the step to an answer: the
  fleet found when the attempt starts, the fleet the call is made on, how the call ended (returned,
  raised, process killed) and the fleets seen while polling. It is arbitrary unless a lemma says
  otherwise: *quiet* (only the target changes), *obedient* (where an attempt comes to rest, power and
  cordon have changed by the step's effect on its target or not at all; all else is free; the crash
  results also let calls that timed out land late on other machines),
  *succeeding* (quiet, obedient, and the goal is seen in time). Histories are any sequences of runs.
- **Network onboarding** (`Cidr`, `Region`, `Onboarding*`). Validate, apply and delete on a region.
  Apply and delete are lists of calls; a crash is a cut of such a list.
- **Capacity gates** (`Sums`, `Capacity`, `FlavorFit`). N hosts down at once, one host drained, how
  many of a flavor fit.
- **Compute node cleanup** (`Reconcile`). Nova, libvirt and disk reconciled and cleaned.
- **Policy shadowing audit** (`Calico*`). Reported policies against first-match evaluation.
- **Percentile** (`Percentile`). The nearest-rank rule of the rightsizing report.

`Ordering` is Python's stable sort with its laws; `Text` the string helpers with what they compute; `Basics`
an option type. `NexusCalls` and the lemmas named `...Spelled` say in raw fields what the functions compute
that the larger results are stated with.

`dafny verify dfyconfig.toml` checks everything.

## Where the code and its promises differ

- The help text says a rack retains its floor of healthy machines at all times. The machine is
  cordoned before the gate is asked, so the exact bound is one less (`ExactShutdown`,
  `ShutdownNeverLower`), and with
  `--keep-going` there is none (`KeepGoingCordonsAll`). A full run on a healthy rack keeps the floor
  exactly when the rack is larger than the floor (`FullRunKeepsFloorIff`).
- A restore under a change id whose journal already has the restore steps exits 0 and does nothing
  (`SecondRestoreDoesNothing`, `SecondCycleStaysDown`); `RestoreExitZero` says exactly when exit 0 can be believed.
- "Re-running is safe" holds for networks, subnets, routers and interfaces, and for security groups
  unless the run that created the group was cut among its rules (`WholeRegionConvergesIff`).
- Validation never compares a spec's own subnets with each other. A spec that clashes with itself is
  applied once, in full or in part, and then refused for good, also by `--delete` (`RevalidatesIff`,
  `RerunIsAcceptedIff`, `Onboard`).
- A subnet without a gateway gets no router interface and no error (`RouterServesGatewayedSubnets`).
- "Worst case" in the upgrade gate is the worst by memory in use, which is the worst verdict only on
  hosts of one size (`GateIsExact`, `MixedSizesMislead`).
- A clean of orphan domains reports success for a domain that kept running (`CleanupConvergesIff`).
- The shadowing audit ignores direction and protocol, sorts order 0 last, and takes equal orders as
  listed though it calls them arbitrary itself; each makes it call a policy unreachable that is not.
  `RowTrueIff` says exactly when a row is true in a direction, order 0 and equal orders included.

## Model

| member | source | states |
|---|---|---|
| `Text.LastSegmentIs` | azure/operator-nexus/python/nexus_common.py:161-161 | the rack or cluster name is what stands, free of slashes, between a slash or the start and the slashes at the end |
| `Text.StripIs` | kubernetes/python/calico_policy_audit.py:188-188 | a selector is compared without the blanks at its ends, and keeps all else |
| `Text.LowerIs` | azure/operator-nexus/python/nexus_common.py:119-123 | lowering moves the ASCII capitals by 32 and leaves every other character |
| `NexusFleet.HealthSummary` | azure/operator-nexus/python/nexus_common.py:188-210 | the list of problems is empty exactly for a ready, available, powered-on, uncordoned machine without a failed hardware validation; each problem is listed exactly when its field is off |
| `NexusFleet.ListMachines` | azure/operator-nexus/python/nexus_common.py:104-126 | filtering by cluster, rack text and names in turn, then sorting, gives the machines that meet all options at once, in rack and slot order |
| `NexusFleet.ScopedIsExact` | azure/operator-nexus/python/nexus_common.py:114-126 | over any listing of the fleet: every machine in scope once and no other, sorted by rack then slot |
| `NexusFleet.SelectedIff` | azure/operator-nexus/python/nexus_common.py:114-123 | the scope options in the machine's own fields: --cluster wants the last segment of the cluster id, --rack any text that stands in the lower-cased rack id, --machine a name in any case; all those given must hold |
| `NexusFleet.ScopedInOrder` | azure/operator-nexus/python/nexus_common.py:125-125 | of two machines in scope the earlier has the smaller last segment of its rack id, as text, or the same one and no larger slot |
| `NexusFleet.RackHasHeadroom` | azure/operator-nexus/python/nexus_bmm_maintenance.py:114-136 | true exactly when the target is in scope and at least the floor of other machines in scope in its rack are healthy; counting list entries counts machines |
| `NexusFleet.HeadroomWidens` | azure/operator-nexus/python/nexus_bmm_maintenance.py:114-136 | the check is conservative: passing under a narrow scope means the whole fleet can spare the machine |
| `NexusFleet.SmallScopeNeverPasses` | azure/operator-nexus/python/nexus_bmm_maintenance.py:114-136 | with no more machines of the rack in scope than the floor, the check never passes, however healthy the rack |
| `NexusDriver.MaintenanceState.Record` | azure/operator-nexus/python/nexus_bmm_maintenance.py:75-84 | one record: the step is added to the completed list once and only for ok, a log line always |
| `NexusDriver.WaitFor` | azure/operator-nexus/python/nexus_bmm_maintenance.py:95-111 | the polling loop equals its specification, whose goals PollsFor spells out: it stops at the first observation that meets the goal, fails when observations run out, errors when the machine is gone |
| `NexusDriver.Perform` | azure/operator-nexus/python/nexus_bmm_maintenance.py:139-204 | each step's call and polling leave the fleet, the outcome and the events of the step's specification, which AttemptEvents and OkLeaves spell out |
| `NexusDriver.AttemptStep` | azure/operator-nexus/python/nexus_bmm_maintenance.py:244-270 | one pass of the step loop: gate before power-off, step, journal |
| `NexusCalls.AttemptEvents` | azure/operator-nexus/python/nexus_bmm_maintenance.py:139-204 | the events of an attempt one by one: cordon, power-on and uncordon make exactly their call; a power-off makes it directly after a passed check and not after a failed one; waiting and verifying make none |
| `NexusCalls.CallsMatchLog` | azure/operator-nexus/python/nexus_bmm_maintenance.py:244-270 | over any history, for each of cordon, power-off, power-on and uncordon: every attempt the log tells of and the check did not stop made its call, and there are no other calls but one at most for each run that was killed |
| `NexusCalls.CompletedWasCalled` | azure/operator-nexus/python/nexus_bmm_maintenance.py:244-270 | from a fresh journal, a step listed as completed was called |
| `NexusCalls.PoweredOffWasSpared` | azure/operator-nexus/python/nexus_bmm_maintenance.py:247-252 | every machine listed as powered off was called to power off directly after a check that saw at least the floor of healthy other machines in its rack |
| `NexusCalls.RowMatchesLog` | azure/operator-nexus/python/nexus_bmm_maintenance.py:236-279 | the row reported for a machine agrees with its journal: ok when every step of the phase is recorded, else the step logged last, failed or in error, or the power-off stopped by the check |
| `NexusCalls.PollsFor` | azure/operator-nexus/python/nexus_bmm_maintenance.py:139-185 | in the machine's own fields, when each poll succeeds: cordoned; off; on; ready with status Available or Provisioned; not cordoned; shown by an observation before the machine is ever missing |
| `NexusCalls.OkLeaves` | azure/operator-nexus/python/nexus_bmm_maintenance.py:139-204 | the fields a machine has when its step ends ok, verify included |
| `NexusCalls.HealthyPassesRestore` | azure/operator-nexus/python/nexus_bmm_maintenance.py:152-204 | a healthy machine meets the goal of every step of a restore |
| `NexusDriver.MaintainMachine` | azure/operator-nexus/python/nexus_bmm_maintenance.py:207-279 | the step loop equals its specification: recorded steps skipped, first trouble ends the machine |
| `NexusDriver.RunMachines` | azure/operator-nexus/python/nexus_bmm_maintenance.py:358-363 | the machine loop equals its specification: without keep-going the first bad row ends the run |
| `NexusDriver.Maintain` | azure/operator-nexus/python/nexus_bmm_maintenance.py:324-369 | an empty scope, or one bounded neither by rack nor by machine, exits 2; a dry run lists the steps and exits 0; unconfirmed exits 1; none of these touches anything. Otherwise the run is over the sorted scope and exits 0 exactly when every row is ok |
| `NexusJournal.JournalInvariant` | azure/operator-nexus/python/nexus_bmm_maintenance.py:72-84 | over any history of full, shutdown and restore runs on any fleet, killed and resumed anywhere: completed lists only grow, never repeat a step, and keep each half of the cycle in order with no gap |
| `NexusJournal.FullRunsWalkTheCycle` | azure/operator-nexus/python/nexus_bmm_maintenance.py:55-55 | under full runs alone a completed list is an initial part of the cycle |
| `NexusJournal.LogTellsAll` | azure/operator-nexus/python/nexus_bmm_maintenance.py:75-84 | over any history a step is in the completed list exactly when the log has an ok line for it, and no log line is lost |
| `NexusJournal.AttemptLogs` | azure/operator-nexus/python/nexus_bmm_maintenance.py:244-270 | an attempt adds exactly one log line with its outcome, unless the process was killed first |
| `NexusJournal.HeadroomAtEveryPowerOff` | azure/operator-nexus/python/nexus_bmm_maintenance.py:247-252 | over any history on any fleet: each power-off call comes right after a passed check of that machine, with no driver action between, and every check reports the truth of the fleet it saw; CallsMatchLog says the calls are there |
| `NexusJournal.PowerOffsAreSpared` | azure/operator-nexus/python/nexus_bmm_maintenance.py:12-14 | hence the check before every power-off call saw, on the whole fleet and not just the scope, at least the floor of healthy other machines in the rack |
| `NexusQuiet.CallsAreSpared` | azure/operator-nexus/python/nexus_bmm_maintenance.py:247-252 | when work on a machine leaves the others alone, what the check saw still stands when the call is made, whatever happens to the fleet between runs |
| `NexusQuiet.OneAtATime` | azure/operator-nexus/python/nexus_bmm_maintenance.py:358-363 | a full run without keep-going on a quiescent fleet: of the machines healthy at the start never more than one is unhealthy, rows cover a prefix of the scope and all but the last are ok, and exit 0 means all done and all healthy |
| `NexusOrder.OneAtATimeThroughout` | azure/operator-nexus/python/nexus_bmm_maintenance.py:358-363 | the same over any history of full runs on the same machines, killed and resumed anywhere: of the machines healthy at the start never more than one is unhealthy |
| `NexusQuiet.ExitZeroCompletes` | azure/operator-nexus/python/nexus_bmm_maintenance.py:236-239 | exit 0 means every step of the phase is journalled for every machine of the scope |
| `NexusQuiet.RestoreExitZero` | azure/operator-nexus/python/nexus_bmm_maintenance.py:223-239 | exactly when exit 0 of a restore can be believed: all machines of the scope are healthy afterwards if and only if those already journalled as verified were healthy before |
| `NexusQuiet.RestoreCompleteness` | azure/operator-nexus/python/nexus_bmm_maintenance.py:152-204 | wherever taking machines down stopped, if nothing was restored before and only restore runs follow, a restore exiting 0 leaves every machine of its scope healthy |
| `NexusQuiet.FullCompleteness` | azure/operator-nexus/python/nexus_bmm_maintenance.py:207-279 | full runs under one change id on a quiescent fleet, killed and resumed anywhere: once one exits 0 every machine of its scope is healthy |
| `NexusQuiet.ShutdownRestoresNothing` | azure/operator-nexus/python/nexus_bmm_maintenance.py:223-227 | shutdown runs, killed anywhere, journal no restore step, so they meet the hypothesis of RestoreCompleteness |
| `NexusQuiet.CompletedRunDoesNothing` | azure/operator-nexus/python/nexus_bmm_maintenance.py:236-239 | a run whose steps are all journalled changes nothing and reports ok for every machine |
| `NexusObedient.AttemptObedient` | azure/operator-nexus/python/nexus_bmm_maintenance.py:139-204 | a step moves its machine's power or cordon or leaves them, whatever the driver hears; recorded ok, it moved them; no other machine's moved |
| `NexusCrash.CrashRefinement` | azure/operator-nexus/python/nexus_bmm_maintenance.py:58-88 | over any history of full runs, with or without keep-going, each killed before a step's effect, between effect and record or after it, every machine's power and cordon are where its journalled steps put them or one step further; the late effect of a call that timed out may land at any moment, readiness, status and hardware may do anything |
| `NexusCrash.ObedientRun` | azure/operator-nexus/python/nexus_bmm_maintenance.py:207-279 | a platform that only ever moves the target of the attempt, by its step, meets what CrashRefinement asks of a run |
| `NexusCrash.ResumedEqualsUninterrupted` | azure/operator-nexus/python/nexus_bmm_maintenance.py:207-279 | any two such histories that end with exit 0, one of them uninterrupted if one likes, leave the same power and cordon states: on and uncordoned for each machine named, untouched for the rest; on a quiescent fleet the machines named are healthy |
| `NexusCrash.UninterruptedFinishes` | azure/operator-nexus/python/nexus_bmm_maintenance.py:358-369 | a single uninterrupted run exiting 0 is such a history |
| `NexusSuccess.ExactShutdown` | azure/operator-nexus/python/nexus_bmm_maintenance.py:236-270 | shutdown on n healthy machines of one rack with floor f >= 1, run once or repeatedly: exactly the first max(0, n - f) are off, the healthy count ends at min(n, f) - 1 and was never lower, whenever readiness follows power |
| `NexusOrder.ShutdownNeverLower` | azure/operator-nexus/python/nexus_bmm_maintenance.py:244-252 | the bound needs no call to work: over any history of the same shutdown run on a quiescent rack, killed, raising or timing out anywhere, at least min(n, f) - 1 machines are healthy at every point |
| `NexusSuccess.ScopeIsRack` | azure/operator-nexus/python/nexus_common.py:114-126 | the scope of a real run on a healthy rack is such a list, lowest slot first |
| `NexusSuccess.KeepGoingCordonsAll` | azure/operator-nexus/python/nexus_bmm_maintenance.py:244-252 | with keep-going every machine of the scope ends cordoned whatever the floor, because the gate is asked after the cordon |
| `NexusSuccess.FullRunKeepsFloorIff` | azure/operator-nexus/python/nexus_bmm_maintenance.py:290-291 | a full run on a rack of healthy machines keeps the floor at every point if and only if the rack has more machines than the floor |
| `NexusSuccess.UninterruptedSucceeds` | azure/operator-nexus/python/nexus_bmm_maintenance.py:358-369 | from a fleet with headroom and good hardware for each machine named, whatever their state, an uninterrupted full run whose calls work exits 0 |
| `NexusSuccess.SecondRestoreDoesNothing` | azure/operator-nexus/python/nexus_bmm_maintenance.py:236-239 | once a restore exited 0, whatever happens next under the same change id, restoring those machines again changes nothing and exits 0 |
| `NexusSuccess.SecondCycleStaysDown` | azure/operator-nexus/python/nexus_bmm_maintenance.py:223-239 | machines restored and then shut down under one change id stay off: every later restore exits 0 and changes nothing |
| `NexusSuccess.RestoreAfterSecondShutdownFails` | azure/operator-nexus/python/nexus_bmm_maintenance.py:223-239 | such a history exists: restore, shutdown, restore, exit 0 each time, machine left off |
| `Cidr.OverlapsIsSharing` | openstack/python/network_onboarding.py:138-138 | the four-point overlap test holds exactly when the two networks share an address |
| `Cidr.AlignedNest` | openstack/python/network_onboarding.py:125-141 | CIDR blocks (section 3.1 of RFC 4632) that share an address are nested |
| `Cidr.ParsedIsAligned` | openstack/python/network_onboarding.py:125-135 | strict and loose parsing both give aligned blocks, and agree where strict parsing succeeds |
| `Cidr.ParsedSpelled` | openstack/python/network_onboarding.py:125-135 | in numbers: what parses, and to which block: one of 2 to the prefix equal parts of the 2^32 or 2^128 addresses, at a multiple of its size, holding the address written; strict parsing wants its first address |
| `OnboardingValidate.Validate` | openstack/python/network_onboarding.py:72-174 | each row is reported exactly when its own condition holds, and the run raises exactly on a gateway of the other family than its pool; there is a FAIL row exactly when the spec is inadmissible, stated in addresses: pools nonempty, inside the block and off the gateway, no address of the block in another subnet of the project, VLAN free, external network real; the all-passed row exactly when there is none to report |
| `OnboardingValidate.CheckPool` | openstack/python/network_onboarding.py:148-159 | no row exactly when every address of the pool is in the block and none is the gateway; outside, reversed or holding the gateway, each named exactly when it applies |
| `OnboardingValidate.CheckOverlaps` | openstack/python/network_onboarding.py:131-141 | one row for exactly the differently named subnets of the project that share an address with the block |
| `OnboardingValidate.CheckVlan` | openstack/python/network_onboarding.py:101-109 | one row for exactly the other networks that have the VLAN on the physical network |
| `OnboardingValidate.CheckProvider` | openstack/python/network_onboarding.py:87-96 | each row exactly when due: vlan or flat without a physical network, vlan without an id, vlan with an id outside 1 to 4094 |
| `OnboardingValidate.CheckRouter` | openstack/python/network_onboarding.py:161-169 | each row exactly when due: the external network is missing, or is there and not external |
| `OnboardingValidate.CheckMtu` | openstack/python/network_onboarding.py:111-119 | the warning appears exactly when the MTU exceeds that of every peer and there is one |
| `OnboardingApply.ApplyConverges` | openstack/python/network_onboarding.py:177-264 | after any number of runs each cut short after any step, one run to the end gives the networks, subnets, routers and interfaces of an uninterrupted run |
| `OnboardingApply.WholeRegionConvergesIff` | openstack/python/network_onboarding.py:266-297 | after any number of cut runs the whole region, security group included, converges if and only if the run that created the group was not cut before its last rule |
| `OnboardingApply.ApplyIsIdempotent` | openstack/python/network_onboarding.py:4-7 | a further run of the same spec changes nothing |
| `OnboardingScript.RerunCreatesNothing` | openstack/python/network_onboarding.py:181-264 | a second run reports only EXISTS and SKIPPED rows |
| `OnboardingScript.RowsTellChanges` | openstack/python/network_onboarding.py:181-297 | a step's row says CREATED or ATTACHED exactly when the step changes the region |
| `OnboardingOutcome.AppliedMakesNetwork` | openstack/python/network_onboarding.py:181-208 | the network apply leaves: the one found, unchanged, or one with project, provider type, physical network, segment, MTU, sharing and port security of the spec, empty ones not passed on, and not external; no other network changes |
| `OnboardingOutcome.AppliedMakesSubnets` | openstack/python/network_onboarding.py:210-236 | the subnets apply leaves: those found, unchanged, and for each new name the network, project, cidr, gateway, pools, name servers and DHCP flag of the spec's first entry of that name |
| `OnboardingOutcome.AppliedMakesRouterAndGroup` | openstack/python/network_onboarding.py:238-297 | the router found keeps project and gateway, a new one has the spec's; a new security group has exactly the spec's rules in order, every other group is unchanged |
| `OnboardingOutcome.RouterServesGatewayedSubnets` | openstack/python/network_onboarding.py:238-264 | on a region without the spec's names the router ends with an interface on exactly the spec's subnets that have a gateway; others are silently skipped |
| `OnboardingDelete.DeleteUndoesApply` | openstack/python/network_onboarding.py:301-350 | on a sound region without the spec's names, deleting after any number of interrupted runs restores the region exactly and no call is refused |
| `OnboardingDelete.DeleteIsUndone` | openstack/python/network_onboarding.py:301-350 | the teardown is the sequence of its calls, stopping at the first refused |
| `OnboardingDelete.RefusedIffDangling` | openstack/python/network_onboarding.py:301-350 | on a sound region the API is taken to refuse exactly the removals of networks and subnets that would leave something dangling, which is why the teardown goes in reverse order |
| `OnboardingDelete.DeleteUndoesRuns` | openstack/python/network_onboarding.py:301-350 | after any runs that create or delete, in any order and each cut after any call, one deletion to the end restores a sound region exactly and no call is refused |
| `OnboardingRevalidate.RevalidatesIff` | openstack/python/network_onboarding.py:121-141 | an admissible spec with distinct subnet names stays admissible after apply if and only if no two of its subnets, one of them new, share an address |
| `OnboardingRevalidate.InterruptedAdmissibleIff` | openstack/python/network_onboarding.py:121-141 | after runs cut short anywhere the spec is still admissible if and only if none of its subnets shares an address with another one of them created since |
| `OnboardingRevalidate.AcceptedRerunConverges` | openstack/python/network_onboarding.py:4-7 | a rerun of the command that is not refused leaves the core region of an uninterrupted run |
| `OnboardingRevalidate.RerunIsAcceptedIff` | openstack/python/network_onboarding.py:366-388 | however the command was cut short, each run validating first, a further run is accepted, if and only if no two of the spec's subnets, one of them new, share an address |
| `OnboardingRevalidate.SelfClashPassesOnce` | openstack/python/network_onboarding.py:121-141 | concrete spec with one block twice: passes validation and never again, neither once applied nor after a run that stopped at its first subnet |
| `OnboardingScript.ApplySpec` | openstack/python/network_onboarding.py:177-298 | the call-by-call script leaves the region and reports the rows of the step list; every region others can see is a cut of it |
| `OnboardingScript.DeleteSpec` | openstack/python/network_onboarding.py:301-350 | the teardown loops equal the teardown function, stopping at the first refused call |
| `OnboardingScript.Onboard` | openstack/python/network_onboarding.py:366-388 | nothing is created or deleted unless the spec is admissible, --delete included; dry runs and unconfirmed deletions change nothing and exit 0 |
| `Capacity.HostCapacity` | openstack/python/common.py:179-207 | the loop gives the host names in order of first appearance and the figures stored under them |
| `Capacity.NamesAreListed` | openstack/python/common.py:187-206 | the names are those listed, each once |
| `Capacity.LastFiguresCount` | openstack/python/common.py:187-206 | a host's figures are those of the last entry of its name, Placement's where it has any |
| `Capacity.FiguresSpelled` | openstack/python/common.py:171-199 | the figures in Placement's terms: (total - reserved) * ratio and used, nothing for a missing class; the hypervisor's own when Placement has no class for the host |
| `Capacity.DrainBalance` | openstack/python/upgrade_preflight.py:160-167 | for every choice of victims: survivors' free less victims' used is all free less victims' total, for vCPU and memory |
| `Capacity.VictimsNeedMost` | openstack/python/upgrade_preflight.py:159-165 | the chosen victims need the most memory any N hosts could need |
| `Capacity.GateIsExact` | openstack/python/upgrade_preflight.py:159-174 | on hosts of one size the gate passes if and only if every choice of N hosts fits elsewhere |
| `Capacity.CheckCapacityIsExact` | openstack/python/upgrade_preflight.py:151-174 | the same on the listed hypervisors: only those up count, and none up is a refusal |
| `Capacity.EveryChoiceIff` | openstack/python/upgrade_preflight.py:159-174 | on any sizes every choice of N fits if and only if the N largest totals fit, resource by resource |
| `Capacity.GateIsMonotone` | openstack/python/upgrade_preflight.py:160-174 | with nonnegative totals, passing for N + 1 implies passing for N |
| `Capacity.MixedSizesMislead` | openstack/python/upgrade_preflight.py:159-161 | concrete mixed sizes where the gate passes and another choice of one host does not fit |
| `Capacity.Plan` | openstack/python/compute_node_drain.py:46-68 | one row per instance with its id, name, project, state and flavor; live migration exactly for active or paused in any case, cold migration for shutoff, SKIP with the state otherwise |
| `Capacity.CapacityAvailable` | openstack/python/compute_node_drain.py:71-101 | the two accumulations compare total need of known migratable flavors with total free of the other up, enabled hosts; DrainSpelled says what that is entry by entry |
| `Capacity.DrainSpelled` | openstack/python/compute_node_drain.py:73-101 | entry by entry: passes exactly when the vCPUs and the memory of the known flavors of the rows to be moved are within what is free on the listed entries that are not the host, up and enabled, the last of each name |
| `Capacity.BystandersDoNotCount` | openstack/python/compute_node_drain.py:88-91 | adding or removing any entry that is the drained host, down or disabled does not change the verdict |
| `Capacity.LoadsAddUp` | openstack/python/compute_node_drain.py:71-101 | summing assigned demand host by host is summing it instance by instance |
| `Capacity.FeasibleDrainAllowed` | openstack/python/compute_node_drain.py:71-101 | if the instances to be moved can be assigned to listed hosts other than the drained one, up and enabled, with room on each for all it is given, and none of those starts overcommitted, the check passes |
| `Capacity.FragmentationFoolsDrain` | openstack/python/compute_node_drain.py:71-72 | concrete fragmented hosts: the check passes and no assignment fits |
| `FlavorFit.FitsIsLargest` | openstack/python/hypervisor_capacity_report.py:108-113 | for positive needs the count is the largest whose demands stay within what the host really has free, truncation included |
| `FlavorFit.DisklessIsCapped` | openstack/python/hypervisor_capacity_report.py:111-111 | without disk the same count, capped at a million per host |
| `FlavorFit.ZeroNeedNeverFits` | openstack/python/hypervisor_capacity_report.py:109-110 | a flavor without vCPU or RAM need is counted as fitting nowhere |
| `FlavorFit.FlavorFit` | openstack/python/hypervisor_capacity_report.py:95-121 | the total sums the counts of the hosts that are up; the ten lines printed are in descending order and no line left out shows more room |
| `FlavorFit.LinesSpelled` | openstack/python/hypervisor_capacity_report.py:105-115 | there is one line for each host that is up, with its name and count, in the order listed |
| `FlavorFit.PrintedLinesHold` | openstack/python/hypervisor_capacity_report.py:108-120 | each line printed names a listed host that is up and the largest number of instances it can hold |
| `FlavorFit.TotalPlaceableIsMaximum` | openstack/python/hypervisor_capacity_report.py:102-121 | the total is the size of a placement and no placement is larger |
| `Percentile.PercentileIsQuantile` | azure/python/vm_rightsizing.py:83-89 | at least pct percent of the samples are at most the result and at most pct percent lie strictly below it, despite half-even rounding and both clamps |
| `Percentile.ReportedIsNearQuantile` | azure/python/vm_rightsizing.py:83-89 | what is reported, rounded to one decimal, is a quantile up to half a tenth either way |
| `Percentile.RankBounds` | azure/python/vm_rightsizing.py:88-89 | rounding and clamping keep the rank within one of the share |
| `Percentile.RankSpelled` | azure/python/vm_rightsizing.py:88-89 | the rank exactly: the whole part of the share; for a whole share that number if odd and the one before if even; clamped to the samples |
| `Percentile.RoundsToNearest` | azure/python/vm_rightsizing.py:88-89 | rounding goes to the nearest integer and from the middle to the even one |
| `Reconcile.NovaInstances` | openstack/python/orphaned_instance_cleanup.py:81-96 | active instances win, deleted ones fill in the rest |
| `Reconcile.Reconcile` | openstack/python/orphaned_instance_cleanup.py:99-174 | a row is reported exactly when its class's definition holds, failed reads included, and each orphan once; ReportSpelled gives the definitions in Nova's fields |
| `Reconcile.ReportSpelled` | openstack/python/orphaned_instance_cleanup.py:99-174 | orphan: a domain whose UUID was read and is unknown to Nova or has status deleted in any case; missing: a non-deleted instance in a state that expects a domain, its UUID read from none; stale: a UUID-shaped directory of neither a non-deleted instance nor a domain read |
| `Reconcile.CleanOrphans` | openstack/python/orphaned_instance_cleanup.py:207-220 | the loop treats each orphan by destroy then undefine; exit 0 exactly when every undefine succeeded |
| `Reconcile.CleanStale` | openstack/python/orphaned_instance_cleanup.py:221-234 | the loop removes the UUID-shaped stale directories that can be removed; exit 0 exactly when all were |
| `Reconcile.LiveInstancesUntouched` | openstack/python/orphaned_instance_cleanup.py:182-234 | whatever reads fail and commands work, the domain and directory of every instance Nova holds with a status other than deleted, in any case, are still there, unchanged, after either clean |
| `Reconcile.CleanupConvergesIff` | openstack/python/orphaned_instance_cleanup.py:99-174 | after both cleans report success the same instances are missing as before, and nothing else is reported if and only if every orphan was off or could be destroyed |
| `Reconcile.SuccessfulTreatment` | openstack/python/orphaned_instance_cleanup.py:212-217 | a clean counted as success leaves the domain behind exactly when it was running and its destroy failed |
| `Reconcile.TreatmentSpelled` | openstack/python/orphaned_instance_cleanup.py:212-217 | what becomes of one orphan under every combination of running, persistent, destroy and undefine; success is exactly undefining a persistent domain |
| `Reconcile.CleanIsTreatment` | openstack/python/orphaned_instance_cleanup.py:207-220 | cleaning what a fully read report lists is treating exactly the orphans of the host, each of them a domain that is there |
| `Calico.CheckShadowing` | kubernetes/python/calico_policy_audit.py:182-227 | rows are exactly the finding of each selector group, spelled out by RowIff; each order several policies share is reported once, with their number and first five names |
| `Calico.RowIff` | kubernetes/python/calico_policy_audit.py:193-212 | a selector gets a row exactly when some policy of its group other than the last has in either direction a Deny with neither source nor destination; the row is about the first such policy and lists all after it |
| `Calico.GroupInOrder` | kubernetes/python/calico_policy_audit.py:186-192 | a group holds exactly the policies of its selector, blanks around it left out, those with an order other than 0 first and by it, the others last |
| `Calico.TiesAsListed` | kubernetes/python/calico_policy_audit.py:192-192 | policies of one order, and those with none or 0, are audited in the order listed |
| `Calico.SharedOrders` | kubernetes/python/calico_policy_audit.py:214-226 | every order set by more than one policy is reported exactly once, with its count and the first five names |
| `CalicoPruning.GroupIsFiltered` | kubernetes/python/calico_policy_audit.py:186-192 | without orders of 0, a selector's group is the evaluation order with other selectors left out |
| `CalicoPruning.ReachedIffMatters` | kubernetes/python/calico_policy_audit.py:183-184 | a packet gets to a policy exactly when that policy's own rules can change its verdict |
| `CalicoPruning.UnreachableIff` | kubernetes/python/calico_policy_audit.py:197-198 | in evaluation order a policy is reached by no packet at any endpoint if and only if an earlier one on its selector has in that direction a rule with no source, destination or protocol that is no Log |
| `CalicoPruning.UnreachableAlwaysIff` | kubernetes/python/calico_policy_audit.py:214-226 | equal orders taken either way: no packet reaches a policy in any evaluation order if and only if one on its selector has a strictly lower order and such a rule |
| `CalicoPruning.RowTrueIff` | kubernetes/python/calico_policy_audit.py:206-210 | exactly when a row's claim that a catch-all Deny makes the policies after it unreachable is true in a direction, for any list of policies: that Deny, or one audited before it, has such a rule there and a strictly lower order than each policy reported |
| `CalicoPruning.RowTrueWhenOrdersDiffer` | kubernetes/python/calico_policy_audit.py:197-210 | on a selector whose orders all differ and none is 0, only the rules decide: the row is true in a direction if and only if that Deny, or one audited before it, has such a rule there |
| `CalicoPruning.PruningKeepsWalks` | kubernetes/python/calico_policy_audit.py:193-212 | in any evaluation order, deleting any policies that are unreachable in a direction changes no packet's verdict in that direction, other selectors interleaved, whatever selectors mean |
| `CalicoPruning.PruningKeepsVerdicts` | kubernetes/python/calico_policy_audit.py:193-212 | deleting every policy reported by a row that is true in a direction leaves each packet exactly the verdicts it may get there |
| `CalicoPruning.IngressDenyLeavesEgress` | kubernetes/python/calico_policy_audit.py:199-204 | concrete pair: a catch-all Deny for ingress only, the reported policy still decides egress |
| `CalicoPruning.ProtocolDenyLeavesOthers` | kubernetes/python/calico_policy_audit.py:199-204 | concrete pair: a Deny narrowed to one protocol, the reported policy still decides others |
| `CalicoPruning.TiedPolicyMatters` | kubernetes/python/calico_policy_audit.py:214-226 | concrete pair of one order: the policy reported unreachable may be evaluated first, and then decides |
| `CalicoPruning.OrderZeroMisplaced` | kubernetes/python/calico_policy_audit.py:192-192 | concrete pair: a policy of order 0 is evaluated first, audited last and reported unreachable |

## Left out

- Apply: creation and lookup are by name, so results are equal up to ids; a duplicate name in the region, which makes the lookup raise, is not modelled.
- Apply: `--dry-run` rows, and specs whose addresses or names are missing or do not parse outside the `cidr` field.
- Attach: the API's refusal to attach a subnet that overlaps another interface of the router is not modelled; its refusals of attached and gateway-less subnets are.
- OnboardingScript.ApplySpec: the API's refusals of creations, such as of a subnet that overlaps another one of its network, are not modelled as such; a run they end is one cut short there, which the results on interrupted runs cover.
- OnboardingRevalidate.SelfClashPassesOnce: where the API refuses the second subnet of one block, the run stops after the first; both ends are stated.
- OnboardingScript.DeleteSpec: the rows reported are left out.
- NexusDriver.Maintain: `--hold-seconds` and the evacuate and skip-shutdown flags of the calls have no part in the state modelled.
- NexusDriver.WaitFor: time is the number of observations made before the timeout; logging is left out.
- NexusDriver.MaintenanceState.Record: timestamps are left out and the file write is atomic.
- NexusSuccess.ExactShutdown: healthy machines of one rack only; other machines of the fleet may be anything.
- Capacity.HostCapacity: missing figures count as the numbers given; arithmetic is over the reals, not floating point.
- Percentile.ReportedIsNearQuantile: over the reals, not floating point.
- Reconcile.CleanupConvergesIff: one host, nothing changing on it between the runs, libvirt UUIDs set and unique.
- CalicoPruning.RowTrueIff: reach is over every meaning of selectors and peers, so it is about what the policies say and not about one cluster's labels. Tiers, namespace and service account selectors, `types` and the not-fields of rules are not modelled; a Pass rule counts as a decision.
- The other audits, reports, exporters, migrations and playbooks of the repository: threshold checks, straight-line stages or behaviour of engines not shown.
- Parsing of command lines, YAML and JSON, SDK calls, ssh and rendering: input and output.
