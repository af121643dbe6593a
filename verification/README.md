# Verified model of the ship-work planner

This project models the parts of the repository where one derivation has to agree
with another, and proves that they do (or exactly when they do).

* **The decision engine** (`Cascade`, `Decision`, `Mitigation`, `Candidates`, `Footprint`). A
  hazard in one space reaches others across directed couplings; rules turn what reaches a
  space into a state, a trace and a clear time; mitigations are drawn from that trace and
  priced by evaluating a changed world.
* **The planning derivations of the prototype** (`Forest`, `Stranding`, `Dispatch`,
  `WeekPlan`). Segments of a distributed package form a forest. Testability looks up
  it, stranded hours look down it, and the two must tell the same story. Service teams
  are finite: requests are ranked, sent up to capacity, and the ledger and the week
  plan claim what that recovers.
* **The P6 schedule toolchain** (`XerText`, `XerFaults`, `XerCheck`, `Generator`, `Timeline`,
  `GeneratedFile`, `Numerals`, `XerClone`, `CloneCheck`, `ClonedFile`, `CloneVerdict`). A generator, a
  text format with its parser, a validator, and a cloner that multiplies a file for
  stress testing. The last result runs the length of it: whatever is drawn, generate a
  schedule, write it, clone the text, parse the result, and its references, dates,
  statuses and hours are right.
* **Two kernels** (`Placards`, `GapSweep`). A probing allocator of compartment placards
  over a zone chart, and the interval sweep that shades the stretches of a deck plate
  where the deck does not exist.

`Sequences` holds the array idioms the rest share (filter, map, sum, stable sort). Code
that updates state is modelled by classes and methods with loops, each proved against
what it is for; code made of expressions is modelled by functions. Random draws are
arbitrary inputs in their stated ranges, instants are whole numbers (milliseconds in the
engine, microseconds in the generator, minutes in the validator), hours are reals in the
validator and whole numbers in the generator, and conversions of cells to dates and
numbers are parameters.

## Findings

Properties that the code does not have everywhere, each with a witness and the
condition under which it holds.

* Hop counts saturate at a byte. Below a bound of 255 hops the bound limits the path
  (`Cascade.HopBoundRespected`); at 255 a chain of any length is walked
  (`Cascade.HopBoundSaturates`). The comment at
  `crates/wadl-domain/src/units.rs:154-155` relies on callers staying below.
* The plain reach of what an action changes is said to overapproximate every hazard's walk,
  so that a space outside it keeps its verdict (`crates/wadl-mitigate/src/lib.rs:569-577`).
  It holds for all worlds within given limits exactly while hops are counted, rules or
  couplings limited below 255: `Footprint.SoundIffCounted`. The rule table accepts a hop
  depth of 255 (`crates/wadl-engine/src/rule_table.rs:304-319`).
* The cap on a settled wait is more than a backstop
  (`crates/wadl-mitigate/src/lib.rs:474-479`): coats in relay in one space, each going on as
  the one before has cured, open it after as many hours as there are coats, and that is
  offered exactly up to 32 of them: `Mitigation.RelayOfferedIff`. With no more clocks than
  the cap it is never spent (`Mitigation.CapSuffices`).
* With a clearance dated after the instant asked about, a settled wait can be later than the
  opening: `Mitigation.ClearanceAheadIsMissed`. A board asked about a past instant is served
  such clearances (`crates/wadl-store/src/memory.rs:2024-2029`). An offer is the earliest
  opening exactly when no line that ends before it leaves the space open:
  `Mitigation.OfferIsFirstIff`.
* Actions drawn from a refusal's trace are remembered under keys in which a hop is its two
  compartment numbers with an arrow between. Every suggestion is on the list exactly when no
  two share a key (`Candidates.AllListedIff`), which numbers without the arrow's head ensure
  (`Candidates.PlainKeysTell`); then the list misses no single discharge or cut that would
  open the space (`Candidates.ListIsComplete`). Numbers are kept as printed, whatever they
  hold, and with an arrow in them a cut that opens the space can be missed:
  `Candidates.ArrowHidesACut`.
* A compartment with more hours done than budgeted can be listed as stranding segments that
  are testable: `Stranding.OverbookedStrandsNothing`. A strand list holds nothing testable
  exactly when its compartment is within budget or everything listed is held by another
  (`Stranding.StrandsOnlyHeldIff`), and completing an over-booked compartment raises what
  others strand exactly when it is listed downstream of them
  (`Stranding.FinishRaisesDownIff`). The two derivations agree for compartments that are
  open, whatever is booked elsewhere (`Stranding.HeldIffStranded`).
* A four-day job whose service clears on the fourth day is planned to start on that very
  day, though the plan adds a day to the clearance: `WeekPlan.StartsOnClearDayIff` says
  exactly when, and `WeekPlan.StartsOnClearDayHappens` names a compartment of the zone model
  for which it does, in whatever list of compartments it recovers;
  `WeekPlan.FrameNineRecovers` takes it alone.
* An assignment or finish-to-start link that names no task makes the validator raise
  instead of reporting the dangling reference it has already found, and so does a link of
  any type that is looked at before the fixture it might be: `XerCheck.Check` gives the
  whole condition, `XerCheck.RelateIs` that of the lookup.
* The validator's tolerance of a hundredth of an hour forgives nothing exactly when the lag
  is whole minutes or exceeds them by more than six tenths:
  `XerCheck.ToleranceForgivesNothingIff`.
* First windows run forwards exactly for availabilities of at least a month, though the option
  takes any whole number: `Generator.ForwardsIffAMonth`.
* Activity codes of the clones are distinct exactly when the base's are and none of them is
  spelled like the clone of another: `CloneCheck.CodesStayDistinctIff`. Generated codes meet
  it (`GeneratedFile.GeneratedCodes`).
* The generator's key events fall in order exactly from six months up
  (`Timeline.EventsInOrderIff`). Its zone reviews are drawn 18 to 40 days before the end and
  linked to light-off, 28 days before it; unless all are drawn at 28 or more the validator's
  logic section finds a link violated: `Timeline.LogicNeedsEarlyReviews`. For the whole
  network `Timeline.GeneratedLogicIff` says when it does not.
* From two clones up the intended logic inversions are excused in the first copy only,
  so the logic section is clean exactly when the base needs no excuse:
  `CloneCheck.CloneLosesExemptions`.
* On the flight deck's overhang, frames 266 to 273, a space's aft end is clipped forward of
  its own frame, by request or by probing, and nowhere inside the hull:
  `Placards.RunsAftIff`. A seeded space is never clipped: `Placards.SeededRunsPastIff`. Probing past 273 takes a placard that no zone covers:
  `Placards.Register.Add`.
* A deck band that starts beyond the plate, or is reversed past everything before it, draws
  gaps that leave the plate or overlap: `GapSweep.Sweep` gives the exact condition.

## Model

| member | source | states |
|---|---|---|
| Cascade.CascadeFrom | crates/wadl-engine/src/traversal.rs:78-125 | the hits are exactly the admissible walks up to (space, coupling type): every hit is one, every one is matched by a hit no longer, none reported twice; the queue loop terminates |
| Cascade.Expand | crates/wadl-engine/src/traversal.rs:92-121 | expanding one queue item leaves every edge it may cross covered by a hit, and keeps hits sound, distinct and ordered by distance |
| Cascade.ClosureCovers | crates/wadl-engine/src/traversal.rs:65-74 | once everything reached has been expanded, no admissible walk was missed |
| Cascade.ReportedIffReached | crates/wadl-engine/src/traversal.rs:64-77 | a space is reported if and only if the hazard reaches it by some admissible walk |
| Cascade.HitIsShortest | crates/wadl-engine/src/traversal.rs:66-67 | no admissible walk to a hit's space by its kind of coupling is shorter than the hit's path |
| Cascade.HitRespectsRule | crates/wadl-engine/src/traversal.rs:97-112 | no step of a hit's path comes home to the origin, exceeds its coupling's reach or the rule's bound, or uses another kind of coupling than the rule's |
| Cascade.HopBoundRespected | crates/wadl-engine/src/traversal.rs:92-95 | with a bound below 255 a path is no longer than the bound and its depth is its length |
| Cascade.HopBoundSaturates | crates/wadl-domain/src/units.rs:154-159 | with the bound at 255 a chain longer than that is walked to its end at a reported depth of 255 |
| Cascade.AdmissibleMonotone | crates/wadl-engine/src/coupling.rs:110-150 | a walk admissible in a graph is admissible in any graph with all its couplings |
| Cascade.ReachesMonotone | crates/wadl-engine/src/coupling.rs:166-173 | removing couplings never makes a hazard reach a space it did not |
| Cascade.UnrelatedCoupling | crates/wadl-engine/src/traversal.rs:96-121 | a coupling that leaves a space the hazard does not reach changes nothing about what it reaches |
| Decision.LiveIsInterval | crates/wadl-engine/src/evaluate.rs:193-281 | a rule's line holds on one half-open interval, from the raise up to an expiry read off the facts alone |
| Decision.LineRuns | crates/wadl-engine/src/evaluate.rs:193-281 | a raised line holds in milliseconds counted out: raise-anchored until cleared or sixty thousand a minute after the raise; end-anchored until as long after the clearance, and on while there is none |
| Decision.PlusMinutesIs | crates/wadl-domain/src/time.rs:42-44 | an instant comes before so many minutes are up exactly when fewer milliseconds have passed, up to where 64-bit counting saturates |
| Decision.CompiledHold | crates/wadl-engine/src/rule_table.rs:509-540 | a hold and anchor come out of the compiler if and only if the hold is none below zero and an end anchor has minutes |
| Decision.ParsesPrinted | crates/wadl-engine/src/rule_table.rs:509-520 | a printed number is parsed as itself exactly when 64 bits hold it, and refused otherwise |
| Decision.ParseHoldIs | crates/wadl-engine/src/rule_table.rs:509-540 | how every row of printed or no minutes is read under every anchor, refusals included |
| Decision.EndAnchoredForever | crates/wadl-engine/src/evaluate.rs:198-216 | an end-anchored line never expires exactly when it has no hold or nothing has ended the hazard |
| Decision.EndAnchoredClearsIff | crates/wadl-engine/src/rules.rs:71-76 | a compiled end-anchored line stops holding if and only if the hazard is ended |
| Decision.CompiledRulesRun | crates/wadl-engine/src/rule_table.rs:509-540 | compiled rules meet the condition under which lines hold on intervals |
| Decision.Evaluate | crates/wadl-engine/src/evaluate.rs:296-370 | the trace is what each rule has to say about each raised hazard, in order and nothing between; the state is its most severe and the clear time its latest expiry |
| Decision.CollectTrace | crates/wadl-engine/src/evaluate.rs:299-356 | every raised hazard against every rule of its kind, hazards in order, rules in order |
| Decision.HazardLines | crates/wadl-engine/src/evaluate.rs:304-355 | one raised hazard adds what its rules have to say, after what was told before |
| Decision.Lines | crates/wadl-engine/src/evaluate.rs:314-354 | one rule against one hazard: no line unless it is live, and otherwise one line along a shortest walk for each kind of coupling the subject is reached by |
| Decision.CoupledLines | crates/wadl-engine/src/evaluate.rs:334-353 | one line for every hit on the subject: every kind of coupling it is reached by has one, no two share a kind, each is along a shortest walk of its kind |
| Decision.FiringRecorded | crates/wadl-engine/src/traversal.rs:66-74 | a verdict records a firing along every kind of coupling it reaches by, none collapsed into another |
| Decision.GoverningState | crates/wadl-engine/src/evaluate.rs:358-361 | BLOCK if any line of the trace says so, else SUSPEND, else WARN, else ALLOW |
| Decision.LastExpiry | crates/wadl-engine/src/evaluate.rs:362-363 | the clear time is the latest of the timed lines', and absent when none is timed |
| Decision.StepFires | crates/wadl-engine/src/evaluate.rs:317-354 | every line of a verdict's trace comes from a hazard and a rule that fire, with that rule's state and clock |
| Decision.FiringBelowState | crates/wadl-engine/src/decision.rs:40-48 | no rule that fires is more severe than the verdict |
| Decision.VerdictUnique | crates/wadl-engine/src/evaluate.rs:283-296 | two verdicts on one request agree on state and clear time: the answer is reproducible |
| Decision.StateByFirings | crates/wadl-engine/src/decision.rs:23-37 | the answer is BLOCK if and only if some blocking rule fires; SUSPEND if and only if some suspending rule does and no blocking one; WARN if and only if some warning rule does and none that refuses; ALLOW otherwise |
| Decision.SameFiringsSameVerdict | crates/wadl-engine/src/evaluate.rs:358-363 | requests under which the same rules fire are answered alike |
| Decision.RefusedIff | crates/wadl-engine/src/decision.rs:50-54 | work is refused if and only if some rule that refuses work fires |
| Decision.FewerFiringsNoWorse | crates/wadl-engine/src/decision.rs:40-48 | a request under which less fires is answered no more severely |
| Decision.UnknownWorkIsConservative | crates/wadl-engine/src/rules.rs:47-62 | narrowing the rules to known work never makes the answer more severe than for unknown work |
| Decision.BoundToIff | crates/wadl-engine/src/rules.rs:47-62 | the rules judged by are those in effect, from the first instant and before the last, less those that name work types or categories and not the known one |
| Mitigation.InterruptNeverWorsens | crates/wadl-mitigate/src/lib.rs:425-440 | closing a coupling in both directions never makes any space worse |
| Mitigation.DischargeNeverWorsens | crates/wadl-mitigate/src/lib.rs:419-423 | ending a hazard at its source never makes any space worse |
| Mitigation.InterruptFires | crates/wadl-mitigate/src/lib.rs:425-440 | after an interruption exactly those rules fire that reach the space some way not crossing between the two by that coupling, in either direction |
| Mitigation.DischargeFires | crates/wadl-mitigate/src/lib.rs:419-423 | after a discharge exactly the rules on hazards with another origin or name fire |
| Mitigation.WaitWorsensOnlyByNewHazard | crates/wadl-mitigate/src/lib.rs:424 | with no hazard raised meanwhile waiting never makes a space worse |
| Mitigation.BlockingExpiry | crates/wadl-mitigate/src/lib.rs:482-493 | the latest expiry of the refusing lines when all are timed; nothing exactly when none refuses or one is untimed |
| Mitigation.RefusedUntilExpiry | crates/wadl-mitigate/src/lib.rs:482-502 | what refuses on a clock refuses at every instant up to its expiry before which no clearance falls |
| Mitigation.ClearsAtIs | crates/wadl-mitigate/src/lib.rs:485-493 | the expiry read off a verdict's trace is the last clock of what refuses |
| Mitigation.PushesAhead | crates/wadl-mitigate/src/lib.rs:511-513 | an expiry lies ahead of the instant it is seen at, so the search never stops for want of progress |
| Mitigation.SettledWait | crates/wadl-mitigate/src/lib.rs:495-517 | offers exactly the instant to which one to 32 pushes lead that leave the space open, and nothing exactly when there is none |
| Mitigation.OfferIsFirstOpening | crates/wadl-mitigate/src/lib.rs:495-502 | with every clearance in, an offer is the earliest instant at which waiting alone opens the space |
| Mitigation.NoOfferIff | crates/wadl-mitigate/src/lib.rs:495-517 | nothing is offered exactly when the space is open as it is, never opens by waiting, or is still refused where the last allowed push leads |
| Mitigation.UnclockedForEver | crates/wadl-mitigate/src/lib.rs:482-484 | one verification-gated refusal and no amount of time helps |
| Mitigation.PushingEnds | crates/wadl-mitigate/src/lib.rs:474-479 | pushing ends within as many pushes as clocks are still to run, at an open instant or a refusal on no clock |
| Mitigation.CapSuffices | crates/wadl-mitigate/src/lib.rs:474-480 | with at most as many clocks as the cap, nothing is offered exactly when the space is open as it is or never opens |
| Mitigation.RelayOfferedIff | crates/wadl-mitigate/src/lib.rs:474-480 | n coats in relay open the space after n hours and not before, offered if and only if n is at least one and at most the cap |
| Mitigation.OfferIsFirstIff | crates/wadl-mitigate/src/lib.rs:495-502 | whatever clearances are dated ahead, an offer is the earliest opening if and only if the space is refused wherever a line ends before it |
| Mitigation.ClearanceAheadIsMissed | crates/wadl-mitigate/src/lib.rs:495-502 | a coat cleared before it has cured: the offer is the end of the cure, though the space opens at the clearance |
| Candidates.List | crates/wadl-mitigate/src/lib.rs:519-567 | the list holds the settled wait first if one is offered and nothing else but what lines of the trace suggest, something under every suggestion's key, and no key twice |
| Candidates.DischargeIsSuggested | crates/wadl-mitigate/src/lib.rs:519-546 | any discharge that opens a refused space is suggested by a line of the space's own trace |
| Candidates.InterruptIsSuggested | crates/wadl-mitigate/src/lib.rs:547-563 | any interruption that opens a refused space is suggested by a line of its trace, in the direction the hazard took |
| Candidates.AllListedIff | crates/wadl-mitigate/src/lib.rs:540-563 | every suggestion is on the list if and only if no two suggestions share a key |
| Candidates.PlainKeysTell | crates/wadl-mitigate/src/lib.rs:556 | compartment numbers without the arrow's head keep the keys apart |
| Candidates.ListIsComplete | crates/wadl-mitigate/src/lib.rs:519-567 | where keys tell suggestions apart no single discharge or cut that opens a refused space is missing from the list, a cut up to direction |
| Candidates.ArrowHidesACut | crates/wadl-mitigate/src/lib.rs:556 | numbers that hold an arrow: two cuts open a refused space, and no list holds both |
| Footprint.Reach | crates/wadl-mitigate/src/lib.rs:578-604 | the breadth-first search finds exactly the spaces within the largest coupling reach of the seeds |
| Footprint.AffectedBy | crates/wadl-mitigate/src/lib.rs:613-626 | the reach of everything the actions change |
| Footprint.WalkAfter | crates/wadl-mitigate/src/lib.rs:571-575 | while hops are counted a hazard's walk ends within plain reach of every space on it |
| Footprint.OutsideKeepsVerdict | crates/wadl-mitigate/src/lib.rs:575-611 | whatever list of discharges, waits and interruptions, a space outside its reach keeps its state and clear time |
| Footprint.OutsideShadowIsOpen | crates/wadl-mitigate/src/lib.rs:628-633 | a space outside every hazard's reach is open by construction |
| Footprint.SoundIffCounted | crates/wadl-mitigate/src/lib.rs:571-577 | for all worlds within given hop and reach limits the claim holds if and only if one of the limits is below 255 |
| Forest.AncestorsOf | reference/shipyard-onboard-shell.logic.js:896 | the upward walk terminates on a forest and yields what is upstream, nearest first |
| Forest.DepthOf | reference/shipyard-onboard-shell.logic.js:895 | the depth counted by the walk is the number of ancestors |
| Forest.DescendantIffAncestor | reference/shipyard-onboard-shell.logic.js:896-900 | on any forest d is among the descendants of h if and only if h is among the ancestors of d |
| Forest.OneSiblingOnPath | reference/shipyard-onboard-shell.logic.js:896-900 | a path to the root passes through at most one of a set of siblings |
| Forest.PreorderSound | reference/shipyard-onboard-shell.logic.js:897-900 | everything the downward walk visits is below where it started |
| Forest.PreorderComplete | reference/shipyard-onboard-shell.logic.js:897-900 | everything below is visited |
| Forest.PreorderNoDup | reference/shipyard-onboard-shell.logic.js:897-900 | nothing is visited twice |
| Forest.ParentsFirst | reference/shipyard-onboard-shell.logic.js:1001 | in walk order a segment comes after the one upstream of it |
| Forest.WalkOrderIs | reference/shipyard-onboard-shell.logic.js:1001 | the depth carried down the walk equals the depth counted up from each segment |
| Forest.RunTree.Walk | reference/shipyard-onboard-shell.logic.js:1000-1002 | the pushing recursion appends exactly the walk order and terminates |
| Forest.RunTreeIsComplete | reference/shipyard-onboard-shell.logic.js:1000-1002 | the run tree lists every segment once, parents first, each at its own depth |
| Stranding.RollUp | reference/shipyard-onboard-shell.logic.js:903-910 | the first pass records each segment's hours and completeness |
| Stranding.SegStats | reference/shipyard-onboard-shell.logic.js:903-917 | both passes: testable is the segment and everything upstream of it complete, and held-by lists the rest |
| Stranding.DownSegsOf | reference/shipyard-onboard-shell.logic.js:924-926 | the pushing loop lists each segment downstream of the compartment's homes once |
| Stranding.Strands | reference/shipyard-onboard-shell.logic.js:920-929 | the strand table holds own hours, downstream segments, their hours left, and the packed total |
| Stranding.StrandIs | reference/shipyard-onboard-shell.logic.js:920-929 | own hours are those budgeted less those done; stranded hours sum what is left downstream of the homes, or nothing when own hours are nought; the total counts a stranded hour ten times |
| Stranding.DownSegsAre | reference/shipyard-onboard-shell.logic.js:924-926 | a segment is listed if and only if a home of the compartment is upstream of it, and once |
| Stranding.HeldIffStranded | reference/shipyard-onboard-shell.logic.js:894-929 | a segment is untestable if and only if it is a home of some open compartment or in the strand list of one; no assumption on what is booked |
| Stranding.OverbookedStrandsNothing | reference/shipyard-onboard-shell.logic.js:921-928 | a concrete package where an over-booked compartment lists a segment that is testable |
| Stranding.StrandsOnlyHeldIff | reference/shipyard-onboard-shell.logic.js:921-928 | a strand list holds only untestable segments if and only if its compartment is within budget or another compartment holds everything listed |
| Stranding.FinishReleases | reference/shipyard-onboard-shell.logic.js:903-929 | completing a compartment makes nothing untestable, and releases exactly what it alone held: homes of its own or segments it stranded |
| Stranding.DownBounded | reference/shipyard-onboard-shell.logic.js:927 | de-duplicated stranded hours are at most the hours to go on segments that have any and at least what over-booked segments owe, whatever is booked |
| Stranding.DownWithinBudget | reference/shipyard-onboard-shell.logic.js:927 | within budget they are between nothing and all the hours left in the package |
| Stranding.FinishChangesDown | reference/shipyard-onboard-shell.logic.js:903-928 | completing a compartment takes off what another strands exactly what was left of it, once per listing downstream |
| Stranding.FinishRaisesDownIff | reference/shipyard-onboard-shell.logic.js:903-928 | it raises what another strands if and only if it was over-booked, is listed downstream, and the other is not done with |
| Stranding.FinishLowersDown | reference/shipyard-onboard-shell.logic.js:903-928 | within budget completing a compartment raises no compartment's stranded hours |
| Stranding.LeftConserved | reference/shipyard-onboard-shell.logic.js:904-910 | hours left over segments equal hours left over compartments, each as often as segments list it |
| Stranding.ListedIsHomes | reference/shipyard-onboard-shell.logic.js:924 | where no segment lists a compartment twice that is its number of homes |
| Stranding.AllTestableIff | reference/shipyard-onboard-shell.logic.js:958-959 | every segment is testable exactly when no segment passes through an open compartment |
| Stranding.InstallGateIff | reference/shipyard-onboard-shell.logic.js:955-965 | where every compartment lies on some segment, the install gate is done if and only if every segment is testable |
| Stranding.GoverningIsFirstWorst | reference/shipyard-onboard-shell.logic.js:930 | ten times the hours stranded plus own hours is at most the governing compartment's everywhere, and less for every compartment enumerated before it |
| Stranding.StrandingMoreGoverns | reference/shipyard-onboard-shell.logic.js:926-930 | a compartment that strands more than the governing one has at least ten fewer hours of its own for every hour more that it strands |
| Dispatch.BuildPending | reference/shipyard-onboard-shell.logic.js:1742-1751 | one request object for every pending service of every active, enterable compartment, in order |
| Dispatch.MarkQueue | reference/shipyard-onboard-shell.logic.js:1753-1756 | one service's requests are marked sent down to its capacity in ranked order, no other object is touched |
| Dispatch.ServiceQueues | reference/shipyard-onboard-shell.logic.js:1752-1771 | afterwards an object is marked if and only if it is among the best its service has teams for |
| Dispatch.GreedyIsOptimal | reference/shipyard-onboard-shell.logic.js:1752-1757 | no choice of at most cap requests of a service is worth more in total than the ones sent |
| Dispatch.PackedKeyIsLexicographic | reference/shipyard-onboard-shell.logic.js:1752 | within three digits the packed value orders requests by full unlock, then critical-path days, then hours |
| Dispatch.PackedKeyRanksIff | reference/shipyard-onboard-shell.logic.js:1752 | for limits on hours and days, all requests within them are ranked as intended if and only if hours stay below a thousand and days with hours below the unlock digit |
| Dispatch.ModelCompsPack | reference/shipyard-onboard-shell.logic.js:666-672 | every compartment the zone model generates is within limits that rank as intended |
| Dispatch.ModelRequests | reference/shipyard-onboard-shell.logic.js:661-665 | what a generated compartment asks for: gas-free team, inspectors or neither, then scaffolding or not and always when off limits; cleared by week thirteen but for hard blockers |
| Dispatch.StatusIs | reference/shipyard-onboard-shell.logic.js:682-691 | active from its first week to its last, both included; then blocked exactly while off limits or some request is not cleared, and doable otherwise |
| Dispatch.StaysDoable | reference/shipyard-onboard-shell.logic.js:682-691 | what is doable stays doable for as long as it is active |
| Dispatch.CutlineRespectsRank | reference/shipyard-onboard-shell.logic.js:1754-1755 | nothing queued ranks above anything sent for the same service |
| Dispatch.FullyUnlocksIff | reference/shipyard-onboard-shell.logic.js:1747-1748 | a request is marked as fully unlocking exactly when it is its compartment's only pending one |
| Dispatch.LedgerIsCounterfactual | reference/shipyard-onboard-shell.logic.js:1742-1775 | with everything sent taken as cleared, live status turns from blocked to doable exactly for the compartments the ledger lists, and changes for no other |
| Dispatch.GroupByComp | reference/shipyard-onboard-shell.logic.js:1773 | the grouping holds each compartment's requests in their order, under keys in the order first seen |
| Dispatch.RecoveryLedger | reference/shipyard-onboard-shell.logic.js:1772-1775 | the compartments pushed are, each once, exactly those that recover |
| Dispatch.RecoverCompsAre | reference/shipyard-onboard-shell.logic.js:1775 | the list of recovering compartments holds the compartments all of whose pending services are sent, and nothing else |
| Dispatch.LedgerTotal | reference/shipyard-onboard-shell.logic.js:1776-1777 | the ledger's totals do not depend on the order the grouping gave |
| Dispatch.UnlocksAreSoleRecoveries | reference/shipyard-onboard-shell.logic.js:1757-1758 | unlock totals summed over the services are the totals over recovered compartments that waited for one service only |
| Dispatch.UnlocksWithinLedger | reference/shipyard-onboard-shell.logic.js:1757-1778 | unlocked is at most recoverable in days and hours, and recoverable hours at most idle hours |
| WeekPlan.DispClear | reference/shipyard-onboard-shell.logic.js:2099-2100 | for each compartment sent anything, and for no other, the latest day a team clears it |
| WeekPlan.AnyUndispatched | reference/shipyard-onboard-shell.logic.js:2111 | true exactly when some pending request of the compartment has no team sent |
| WeekPlan.ItemFor | reference/shipyard-onboard-shell.logic.js:2105-2121 | the item of one compartment as the dispatch decides it |
| WeekPlan.FindRequest | reference/shipyard-onboard-shell.logic.js:2111 | the first request object for a compartment and a service, or none when there is none |
| WeekPlan.PlanWeek | reference/shipyard-onboard-shell.logic.js:2099-2122 | the items pushed are one bar per active compartment in order, computed from clear days that are those of the teams sent |
| WeekPlan.KindsMatchLedger | reference/shipyard-onboard-shell.logic.js:2109-2117 | service items are exactly the ledger's compartments, other blocked ones are parked, doable ones go |
| WeekPlan.BarStaysInWeek | reference/shipyard-onboard-shell.logic.js:2118-2121 | for any drag a bar keeps its length and stays in days one to seven |
| WeekPlan.DragMoves | reference/shipyard-onboard-shell.logic.js:2118-2120 | a drag moves any bar by the days it is dragged until it meets an end of the week, and changes nothing else |
| WeekPlan.UndraggedStands | reference/shipyard-onboard-shell.logic.js:2106-2118 | an undragged service item starts the day after its service clears, or as late as still ends on day seven; any other item on the day its frame, start and crew spread it to |
| WeekPlan.ViolatesIffDraggedLeft | reference/shipyard-onboard-shell.logic.js:2116-2134 | a service item is reported too early if and only if it was dragged left; undragged it never starts before its clear day |
| WeekPlan.StartsOnClearDayIff | reference/shipyard-onboard-shell.logic.js:2116 | undragged it starts on its clear day, not after, exactly for a four-day job cleared on day four |
| WeekPlan.StartsOnClearDayHappens | reference/shipyard-onboard-shell.logic.js:648-672 | the zone model's compartment at frame 9 of the second deck does so in every week, and every list of compartments and services, in which it recovers |
| WeekPlan.FrameNineRecovers | reference/shipyard-onboard-shell.logic.js:648-672 | taken alone, with the chemist's three teams, it recovers in the fifth week |
| WeekPlan.EachActiveOnce | reference/shipyard-onboard-shell.logic.js:2103-2124 | every active compartment has exactly one bar and nothing else has |
| WeekPlan.PlanIsSound | reference/shipyard-onboard-shell.logic.js:2118-2136 | over the whole plan bars stay in the week, violations are the service items dragged left, and without drags there are none |
| WeekPlan.LoadOf | reference/shipyard-onboard-shell.logic.js:2125-2130 | a day's crews in all and by trade are the sums over the bars on that day |
| WeekPlan.WeekConservesCrewDays | reference/shipyard-onboard-shell.logic.js:2125-2130 | the seven daily crew loads sum to crew times duration over the placed bars |
| WeekPlan.OverDays | reference/shipyard-onboard-shell.logic.js:2125-2131 | a trade is listed over on a day if and only if the crews of that trade at work that day exceed what the trade has |
| WeekPlan.Flag | reference/shipyard-onboard-shell.logic.js:2133-2136 | for any overloaded days, each placed item is flagged a violation exactly when it starts early, else warned exactly when one of its days is listed over in its trade |
| WeekPlan.FlagWeek | reference/shipyard-onboard-shell.logic.js:2125-2136 | loads, overloaded days and flags in one: an item is warned if and only if it is no violation and on one of its days its trade's crews at work, summed over the bars, exceed the trade's capacity |
| WeekPlan.TouchesOverAny | reference/shipyard-onboard-shell.logic.js:2135 | the loop that stops at the first overloaded day finds one if and only if there is one |
| XerText.StripFixes | scripts/validate-p6-sample.py:70 | stripping leaves a cell alone exactly when neither end is blank |
| XerText.StripIs | scripts/validate-p6-sample.py:70 | strip leaves what stands between the blanks at both ends, whose own ends are not blank |
| XerText.SplitJoin | scripts/validate-p6-sample.py:60 | splitting undoes joining when no cell holds the separator |
| XerText.SplitUnlines | tools/gen_full_xer.py:472 | splitting written text into lines gives back the lines |
| XerText.Parse | scripts/validate-p6-sample.py:54-79 | the loop runs the line machine over the whole text, with the line number of the first failure |
| XerText.StepLine | scripts/validate-p6-sample.py:60-78 | a written line is taken as its tag and its cells |
| XerText.RunTable | scripts/validate-p6-sample.py:62-76 | a written table is read as all its rows, in order, by field name |
| XerText.ParseRender | scripts/validate-p6-sample.py:54-79 | round trip: parsing what was written gives every table back, header ignored, a later table of a name replacing an earlier |
| XerFaults.SplitLinesAre | scripts/validate-p6-sample.py:59 | a line is what stands before any one break, or before a carriage return and line feed together; nothing follows the last |
| XerFaults.ParseFailsIff | scripts/validate-p6-sample.py:59-79 | parsing fails exactly at the first faulty line, under its number: a table line without a name, a row with no table open or no field list since, or one not as wide as the field list in force |
| XerText.CollectFinds | scripts/validate-p6-sample.py:63-64 | with distinct names each table is found under its own |
| XerText.CollectKeys | scripts/validate-p6-sample.py:63-64 | and under no other name is anything found |
| XerText.CellsRoundTrip | scripts/validate-p6-sample.py:70-76 | cell by cell, what is read under a field's name is what was written in its column, stripped |
| XerCheck.CheckRefs | scripts/validate-p6-sample.py:92-121 | the report, section by section in the order written, is empty if and only if every reference of every section resolves |
| XerCheck.CheckTasks | scripts/validate-p6-sample.py:123-148 | the report, task by task, is empty if and only if dates run forwards, work is dated and status agrees with the actuals |
| XerCheck.CheckHours | scripts/validate-p6-sample.py:150-162 | raises if and only if an assignment names no task; otherwise the report is empty if and only if hours add up and agree with status |
| XerCheck.CheckLogic | scripts/validate-p6-sample.py:164-179 | raises if and only if a finish-to-start link names no task; otherwise the report names exactly the links that neither hold nor are exempted |
| XerCheck.RefsSilent | scripts/validate-p6-sample.py:92-121 | the reference section's findings vanish if and only if all references resolve |
| XerCheck.LogicSilent | scripts/validate-p6-sample.py:164-179 | the logic section's findings vanish if and only if every dated link between known tasks holds or is exempted |
| XerCheck.DanglingIff | scripts/validate-p6-sample.py:92-121 | a value is reported dangling under a table and column if and only if a row has it there and nothing of that kind goes by it |
| XerCheck.DanglingParentIff | scripts/validate-p6-sample.py:109-111 | a node is reported if and only if it names a parent that is no node |
| XerCheck.TaskFindingsIff | scripts/validate-p6-sample.py:123-148 | which activities are reported for dates that run backwards, for a missing early pair and for a status their actuals contradict |
| XerCheck.HoursFindingsIff | scripts/validate-p6-sample.py:151-162 | which activities are reported for hours that do not add up to within a half or contradict the status |
| XerCheck.LogicFindingsIff | scripts/validate-p6-sample.py:166-179 | a pair of codes is reported if and only if a finish-to-start link between such tasks, both dated and not the pair excused, is short of its lag by more than six tenths of a minute |
| XerCheck.Relationship | scripts/validate-p6-sample.py:186-190 | the first link between two codes, of whatever type, unless looking at a row before it raises |
| XerCheck.RelateIs | scripts/validate-p6-sample.py:186-190 | the lookup raises if and only if some row does with no match before it, and misses if and only if no row raises or matches |
| XerCheck.RowIsLookedAt | scripts/validate-p6-sample.py:186-190 | looking at a link raises exactly when its predecessor is no task, or carries the code looked for and its successor is none |
| XerCheck.LastOfCodeIs | scripts/validate-p6-sample.py:184 | a code stands for the last row that carries it |
| XerCheck.InversionByDates | scripts/validate-p6-sample.py:192-204 | the inversion is intact if and only if it is linked and, both tasks dated, the minutes from finish to start are fewer than sixty times the lag less six tenths |
| XerCheck.InversionFindings | scripts/validate-p6-sample.py:192-204 | which of its findings a lost inversion gets: no link, or dates that no longer contradict it |
| XerCheck.OverlapByDates | scripts/validate-p6-sample.py:206-236 | the overlap is intact if and only if it is linked with a negative lag and, both tasks dated, the minutes from finish to start are negative and at least sixty times the lag less six tenths |
| XerCheck.OverlapFindings | scripts/validate-p6-sample.py:206-236 | which of its findings a lost overlap gets: no negative lag, no overlap any more, or one deeper than the lag |
| XerCheck.CheckInversion | scripts/validate-p6-sample.py:192-204 | the inversion fixture's finding; none if and only if it is linked and the coded tasks' minutes fall short of the lag by more than six tenths |
| XerCheck.CheckOverlap | scripts/validate-p6-sample.py:206-236 | the overlap fixture's finding; none if and only if it is linked with a negative lag and the coded tasks overlap by no more minutes than the lag and six tenths permit |
| XerCheck.ResolvedNeverRaises | scripts/validate-p6-sample.py:186-190 | with every reference resolved looking the fixtures up raises nothing |
| XerCheck.Check | scripts/validate-p6-sample.py:87-236 | a report comes back unless an assignment or a finish-to-start link names no task or looking a fixture up raises; it is the sections' findings in order, and empty if and only if the schedule conforms and carries both fixtures |
| XerCheck.ToleranceForgivesNothing | scripts/validate-p6-sample.py:174-178 | with whole-minute lags a link passes if and only if the gap in minutes is at least the lag |
| XerCheck.ToleranceForgivesNothingIff | scripts/validate-p6-sample.py:173-176 | every whole-minute gap that passes is as long as the lag if and only if the lag is whole minutes or exceeds them by more than six tenths |
| XerCheck.PathIsLongEnough | scripts/validate-p6-sample.py:164-179 | a clean report bounds whole paths: last start minus first finish is at least all lags plus all durations in between |
| XerCheck.CycleHasNoWork | scripts/validate-p6-sample.py:164-179 | round any cycle durations plus lags sum to at most zero |
| XerCheck.NoCycleOfWork | scripts/validate-p6-sample.py:164-179 | so there is no cycle through tasks that take time unless a lag is negative |
| Numerals.ValueOfDec | scripts/stress/gen-xer.py:66 | reading a printed number gives it back |
| Numerals.PaddedIs | scripts/stress/gen-xer.py:68 | a padded number is digits that read back as the number, as many as the width or the number takes |
| Generator.WaveWindowInside | tools/gen_full_xer.py:294-299 | for every draw and at least one month, a first window starts in the availability, runs forwards and ends before its end |
| Generator.NextWindowInside | tools/gen_full_xer.py:327-333 | so does each later step of a chain, clipped or not |
| Generator.ForwardsIffAMonth | tools/gen_full_xer.py:294-299 | every first window runs forwards exactly when the availability has at least a month |
| Generator.BuildWbs | tools/gen_full_xer.py:214-232 | the running counter gives every node of the breakdown its number, in order, under its own parent |
| Generator.WbsIsClosed | tools/gen_full_xer.py:214-232 | every node later code looks up is a row, and so is every row's parent |
| Generator.WbsIdsDistinct | tools/gen_full_xer.py:214-232 | no two nodes share a number |
| Generator.EarnedWithin | tools/gen_full_xer.py:246-258 | earned hours lie between nothing and the budget, all of it when complete and none when not started |
| Generator.SplitConserves | tools/gen_full_xer.py:268-275 | the two-trade split conserves budget and earned hours and keeps each part's earned within its target |
| Generator.HoursWithin | tools/gen_full_xer.py:242-244 | a work task's assignments sum to its days times its crew times eight hours, stretched by no less than 0.7 and no more than 1.15, in whole hours and at least eight |
| Generator.HoursMonotone | tools/gen_full_xer.py:242-244 | a larger crew or a longer task is never given fewer hours |
| Generator.EarnedKeepsPace | tools/gen_full_xer.py:251-256 | a running task has earned its budget times the elapsed share times the drawn pace, in whole hours and never more than the budget |
| Generator.SplitIsFourToOne | tools/gen_full_xer.py:269-273 | two trades share the budget four to one to the whole hour, and the second earns nothing before the first has earned its part |
| Generator.TaskHours | tools/gen_full_xer.py:242-275 | adding a work task brings the hours of its crew and days, a milestone none, and leaves every other assignment as it was |
| Generator.Generator.AddTask | tools/gen_full_xer.py:235-285 | exactly one task row, its assignments and its user fields are appended, the assignments summing to the hours of its crew and days, and every row laid down stays sound |
| Generator.WithTaskOk | tools/gen_full_xer.py:235-285 | one task more, whatever was drawn, keeps dates, status, hours and references of every row sound |
| Generator.Generator.AddLink | tools/gen_full_xer.py:288-291 | exactly one link is appended, with the next predecessor id |
| Generator.LayChain | tools/gen_full_xer.py:319-352 | the loop over steps lays exactly the chain: prev and cursor carried from step to step, all rows sound, links from older ids to newer |
| Generator.ChainTasks | tools/gen_full_xer.py:322-344 | a chain adds one task a step, in consecutive ids, each in the window that follows the one before |
| Generator.ChainLinks | tools/gen_full_xer.py:345-352 | a chain links each step to the next and nothing else, numbering on from the counter |
| Generator.LayServices | tools/gen_full_xer.py:355-388 | zone and ship-wide services: chain after chain and nothing between them |
| Generator.LaySpaces | tools/gen_full_xer.py:303-353 | chains space by space; under each zone are remembered the last tasks of its chains, in order |
| Generator.LayGap | tools/gen_full_xer.py:390-401 | the crosswalk-gap tasks, each in a wave of its own and linked to the one before |
| Generator.LayMilestones | tools/gen_full_xer.py:404-419 | eight key events and a review per zone, in order, at their instants |
| Generator.LayKeyEvents | tools/gen_full_xer.py:403-424 | the milestones, the links from the picked last tasks to each review and from each review to light-off; the network stays ranked by ids with light-off last |
| Generator.Generate | tools/gen_full_xer.py:302-424 | the whole run lays exactly its sections one after another (what they come to is said in `Timeline`): sound rows, a ranked network, and at least one link against the order of ids |
| Generator.NetworkIsAcyclic | tools/gen_full_xer.py:404-424 | no walk along generated links returns to where it began |
| Generator.GeneratedPasses | tools/gen_full_xer.py:235-285 | every generated row set passes the reference, date, status and hours checks |
| Timeline.StatusedAtDataDate | tools/gen_full_xer.py:246-260 | a task's actual dates are its planned ones as far as the fourteenth day has passed them, and its status is what they say |
| Timeline.WaveWindowRuns | tools/gen_full_xer.py:294-299 | a first window starts within its phase's wave, stretched to the availability, and runs its length or to a day before the end |
| Timeline.NextWindowRuns | tools/gen_full_xer.py:327-333 | a later window follows by its gap and runs its length if that ends in time; otherwise it ends a day before the end and lasts a day at least |
| Timeline.EventsInOrderIff | tools/gen_full_xer.py:404-413 | the key events fall in order exactly for availabilities of six months or more |
| Timeline.EventsFall | tools/gen_full_xer.py:404-413 | the reviews are forty-five days apart from the start, and light-off, certification and cruise are 28, 14 and 5 days before the end |
| Timeline.EventTasks | tools/gen_full_xer.py:414-419 | the key events are fourteen milestones at their instants and reviews so many days before the end, without hours or links |
| Timeline.ZonesLinked | tools/gen_full_xer.py:420-424 | every zone's review is linked from the tasks picked for it and to light-off, finish to start without lag, and no other link is added |
| Timeline.LastsAre | tools/gen_full_xer.py:303-353 | under a zone are remembered exactly the ids of the last tasks of its chains |
| Timeline.GapTasks | tools/gen_full_xer.py:390-401 | each crosswalk-gap task stands in its own wave's window, and each but the first is linked from the one before |
| Timeline.EveryTaskIsManned | tools/gen_full_xer.py:302-424 | over the whole run, whatever is drawn, every work task's assignments sum to the hours of a crew of one to four over its days, and a milestone has none |
| Timeline.UserFields | tools/gen_full_xer.py:276-284 | a task has a location and a work item if drawn, and a work type unless it is a milestone, and no other field |
| Timeline.GeneratedLogicIff | scripts/validate-p6-sample.py:166-179 | a generated schedule passes the logic section if and only if every finish-to-start link is met to the minute: none is excused and the tolerance forgives nothing |
| Timeline.LogicNeedsEarlyReviews | tools/gen_full_xer.py:414-424 | no generated schedule passes the logic section unless every close-out review falls at least 28 days before the end |
| GeneratedFile.FileReadsBack | tools/gen_full_xer.py:426-472 | the ten sections as written, parsed and read column by column are the generated schedule |
| GeneratedFile.GeneratedFilePasses | tools/gen_full_xer.py:426-472 | the written file parses, and what is read passes the reference, date, status and hours checks |
| GeneratedFile.WriteSchedule | tools/gen_full_xer.py:302-472 | the whole script: whatever is drawn, the text written is that of a plan that has been laid down, its links numbered on without a gap |
| GeneratedFile.StressIdsDistinct | scripts/stress/gen-xer.py:60-66 | every task, link and assignment of the stress file has an id of its own, given only how many of each there are |
| GeneratedFile.GeneratedCodes | tools/gen_full_xer.py:208-211 | every generated activity has a code of its own, none spelled like another's clone |
| GeneratedFile.StressFilePasses | scripts/stress/gen-xer.py:2-13 | generate, write, clone any number of times, parse: every reference resolves, dates and statuses are right, hours add up, and every activity has a code of its own |
| XerClone.Partition | scripts/stress/gen-xer.py:36-53 | the loop sets aside headers and rows of the cloned tables and keeps the other lines, or raises on a table line without a name |
| XerClone.SiftRaisesIff | scripts/stress/gen-xer.py:36-38 | a line raises if and only if it opens a table and has no second cell |
| XerClone.IntOfShown | scripts/stress/gen-xer.py:65-66 | a number shown is read back, with a plus or blanks round it too, and a sign alone is none |
| XerClone.EmitRow | scripts/stress/gen-xer.py:63-68 | one row of one clone, id columns overwritten in turn and the code suffixed with the clone's number as `CloneCheck.CodedSpells` says, or raises on a short row or a cell that is no number |
| XerClone.Emit | scripts/stress/gen-xer.py:55-69 | a table's header once, then its rows copy after copy |
| XerClone.Clone | scripts/stress/gen-xer.py:22-74 | the text written for any text read, or nothing when the script raises |
| ClonedFile.CloneRowIs | scripts/stress/gen-xer.py:63-68 | overwriting cells through the index makes the row whose every cell is the clone of the base's |
| ClonedFile.EmittedTableIs | scripts/stress/gen-xer.py:55-69 | what is emitted for a table is the written form of its copies |
| ClonedFile.ColumnStaysDistinct | scripts/stress/gen-xer.py:27 | a column of distinct ids below the stride stays distinct over all clones |
| ClonedFile.CodeColumnDistinctIff | scripts/stress/gen-xer.py:55-68 | the code column written for the clones is distinct if and only if the base's is and no code in it is spelled like the clone of another |
| ClonedFile.PartitionIs | scripts/stress/gen-xer.py:36-53 | on a written file the partition keeps header, shared tables and end mark, and holds each cloned table whole |
| ClonedFile.CloneTextIs | scripts/stress/gen-xer.py:71-74 | the text written for a base file, cloned tables after the end mark |
| ClonedFile.CloneParses | scripts/stress/gen-xer.py:71-74 | that text parses, although the tables come after the end mark |
| ClonedFile.CloneReadsBack | scripts/stress/gen-xer.py:55-74 | parsing it gives the base's table names, shared tables unchanged and each cloned one as whole copies of the base's rows |
| CloneCheck.ShiftInjective | scripts/stress/gen-xer.py:65-66 | shifted ids are equal only for the same clone and the same base id |
| CloneCheck.IdsStayDistinct | scripts/stress/gen-xer.py:60-66 | distinct ids stay distinct over all clones |
| CloneCheck.CodedSpells | scripts/stress/gen-xer.py:67-68 | a clone's code is the base's, a C, and digits that read back as the clone's number, two of them below a hundred |
| CloneCheck.CodedInjective | scripts/stress/gen-xer.py:67-68 | past the first copy equal codes are of one clone and one base code, whatever the base's codes are |
| CloneCheck.CodesStayDistinctIff | scripts/stress/gen-xer.py:67-68 | codes stay distinct over all clones if and only if the base's are distinct and none is spelled like the clone of another |
| CloneCheck.PlainCodesApart | scripts/stress/gen-xer.py:2-8 | codes without a C past their first place are never spelled like a clone's |
| CloneCheck.CloneCodesDistinctIff | scripts/stress/gen-xer.py:55-68 | the same over the activities of a cloned schedule |
| CloneCheck.ResolvesInOwnClone | scripts/stress/gen-xer.py:64-66 | a reference resolves in the clones exactly when it did in the base, and to its own clone's copy |
| CloneCheck.ClonePreservesChecks | scripts/stress/gen-xer.py:55-72 | references, dates and statuses, and hours pass for the clones if and only if they do for the base |
| CloneCheck.CloneLosesExemptions | scripts/stress/gen-xer.py:67-68 | with two clones or more the logic section is clean if and only if every link of the base holds unexempted |
| CloneCheck.OneCloneIsTheBase | scripts/stress/gen-xer.py:60-68 | one clone is the base |
| CloneVerdict.ScheduleOfClones | scripts/validate-p6-sample.py:87-162 | the schedule read off the cloned tables is the clone of the schedule read off the base's |
| CloneVerdict.CloneKeepsVerdict | scripts/stress/gen-xer.py:22-74 | clone the text, parse it, read it: references, dates, statuses and hours pass exactly when the base's do |
| Placards.ZoneOf | tools/gen_cvn73_hull.py:92-96 | the first covering block's zone; the error exactly outside frames 0 to 273 |
| Placards.ChartCovers | tools/gen_cvn73_hull.py:68-81 | every frame 0 to 273 of every deck is in some block and no other frame is |
| Placards.ChartIsDisjoint | tools/gen_cvn73_hull.py:68-81 | no frame of a deck is in two blocks |
| Placards.ZoneScheme | docs/zone-scheme.md:39-46 | each zone has exactly the decks and frames the documented scheme gives it |
| Placards.DeckNumbers | docs/zone-scheme.md:14 | decks count up from 1 at the main deck and levels above from 01; what is printed is the ordinal, with a leading zero for the sign |
| Placards.SideScheme | docs/zone-scheme.md:16 | nought on the centreline, odd to starboard, even to port |
| Placards.LabelInjective | tools/gen_cvn73_hull.py:109 | on one deck, side and usage different frames make different placards |
| Placards.Register.Probe | tools/gen_cvn73_hull.py:109-110 | the loop terminates at the least free frame at or aft of where it starts |
| Placards.Register.Add | tools/gen_cvn73_hull.py:106-119 | the placard of the least free frame at or aft of the clamped request is taken; the space is appended with that frame's zone, or the error when no block covers it |
| Placards.RunsAftIff | tools/gen_cvn73_hull.py:108-117 | a space runs aft from its frame if and only if it is inside the hull, and the flight deck takes requests beyond it |
| Placards.ExtendsAft | tools/gen_cvn73_hull.py:115-117 | a space extends as many frames aft as it is long, as far as the hull reaches and no farther |
| Placards.SeededRunsPastIff | tools/gen_cvn73_hull.py:418-422 | a seeded space is eight frames long and never clipped: it runs past the hull exactly from frame 258 on |
| Placards.Register.Run | tools/gen_cvn73_hull.py:122-134 | one space per side at every stop, in order, each at the least free frame for its draw, none forward of the stretch; numbered names are distinct |
| Placards.Register.AddSeeded | tools/gen_cvn73_hull.py:413-422 | a seeded placard already taken is passed over, another is registered under the frame, side and usage it spells; it fails exactly when that frame is off the chart |
| Placards.SplitLabel | tools/gen_cvn73_hull.py:416 | splitting a placard at its hyphens gives back deck, frame, side and usage |
| Placards.StopsAre | tools/gen_cvn73_hull.py:126-134 | the number of stops of a stretch: the last is the last not beyond its end |
| Placards.NumberedInjective | tools/gen_cvn73_hull.py:130-132 | a numbered name determines its base and its number |
| GapSweep.Sweep | shell-web/src/DeckExplorer.tsx:2443-2454 | gaps are clear of every band and with the bands cover the plate, whatever the bands; they ascend within the plate if and only if no band, clamped, ends before it begins past every band swept before it |
| GapSweep.NothingShownIsShaded | shell-web/src/DeckExplorer.tsx:2438-2442 | no point of the plate inside a gap, fractions of a frame included, is in a band |
| GapSweep.UnreversedTidyIff | shell-web/src/DeckExplorer.tsx:2445-2451 | where no band is reversed the sweep's gaps ascend within the plate if and only if no band starts beyond it |

## Left out

- The tenancy, persistence, API, ingest and authorization crates, and the hash-chained ledger of the store.
- Rule authority texts, reason sentences and clearing authorities of a trace line; they do not enter any decision.
- Decision.Evaluate: among the lines of one rule for one hazard it leaves open the order of the kinds of coupling, and which of several shortest walks of one kind is shown.
- The ranking and combination of mitigations into plans, their hours, and the de-duplicated list of holds.
- Mitigation.OfferIsFirstOpening: is for requests with every clearance in; `Mitigation.OfferIsFirstIff` is for all.
- The rest of the rule table's compiler: hazard kinds, states, hop cells, tokens and bindings.
- The cached index of out-edges: edges leaving a space are read off the edge list, in the same order.
- Cyclic or dangling upstream pointers in a package: the prototype's walks assume a forest, and so does the model.
- Percentages, colours, labels and banner sentences of the prototype.
- Best total value over several services at once: the code is greedy per service and promises no more.
- Python exceptions other than those modelled as results: an absent column, a date or a number that does not convert.
- The wording of findings: a finding carries its kind and the keys it names.
- The validator's compartment coverage section (scripts/validate-p6-sample.py:238-270), which raises nothing and adds findings of its own, and its command line.
- How often generated schedules satisfy their own finish-to-start lags: `Timeline.GeneratedLogicIff` says when one does.
- Names, locations, percentages and work-type tokens of generated tasks are arbitrary texts that fit in cells; the word list of work types is not modelled.
- The generator's draws: how many chains a space gets and which systems they are of is an arbitrary list of chains, and the weights of the draws are not modelled.
- Floating point: stretched days, budgets and lags are computed over the reals, tolerances included.
- Universal newlines and undecodable bytes: texts are sequences of characters with line feeds.
- XerClone.EmitRow: `int` is modelled on optionally signed ASCII digits with blanks around them, without underscores or digits of other scripts.
- XerClone.Clone: the number of clones is a natural number; a negative one behaves as none.
- ClonedFile.CloneReadsBack: holds for files as the writer lays them out whose cloned tables have distinct columns, ids empty or canonical below the stride, and codes without blanks at their ends; the methods and their specification cover every other text.
- GeneratedFile.StressFilePasses: says nothing of the logic section, which generated schedules need not pass.
- Placards.Register.Run: on an error it says only that nothing was removed; the script ends there.
- Placards.Register.AddSeeded: takes placards that are printed labels of their deck, as the seeded list has.
- GapSweep.Sweep: bands have whole-number ends, though the points they cover are reals.
- Couplings, hazards and scale runs derived from the hull register.
- WeekPlan.StartsOnClearDayHappens: whether that compartment recovers among all the compartments the zone model generates is left to the list handed in.
- WeekPlan.FlagWeek: items are distinct objects; the sentences reported beside a flag are left out.
- Candidates.List: actions and lines carry no clearing authority.
- Generator.LayKeyEvents: a pick beyond a zone's list is passed over, where the sample cannot draw one.
- Rendering, state handling and data fetching of the web shell.
