# Straggler, verified

Straggler limits how fast the pods of a group start. Every pod passes an admission webhook, which
finds the pod's staggering group, waits for earlier admissions of the group to become visible, looks
at the group's pods and lets the group's pacers decide: the pod starts, or it is stored blocked. A
reconciler later evicts blocked pods the pacers now allow; their owner recreates them and they go
through admission again. Nothing but admission ever starts a pod, so what the pacers promise is a
property of whole runs of this loop.

The modules follow that structure.

| files | content |
|---|---|
| `Pods`, `Standing` | pods, sorting by creation time, the ready / starting / blocked snapshot |
| `Pacers`, `Composite`, `SharedOrder`, `Stalls`, `Ties` | the exponential and linear pacer, the composite, what follows from its pacers sharing one slice that only some of them sort, and exactly when it can stall, without and with tied creation times |
| `Admission`, `Reconciler` | the two controllers, built on the composite's real `Pace` |
| `PacingProtocol`, `OvershootReached` | the loop as a state machine with up to K overlapping admissions; its safety bound, and runs that reach it |
| `Rounds`, `PassRuns`, `LinearRounds` | one evict-and-readmit pass that waits for its pods, in any interleaving: no bounce under exponential pacing, when a linear pacer makes progress, its livelock |
| `Loops`, `LinearLoops` | passes that do not wait for one another's pods: the exact law of exponential pacing, when a linear pacer makes progress |
| `Drain`, `DrainRuns` | the speed of draining, and that such runs exist |
| `FlightTracker`, `FlightSteps`, `FlightProperties`, `FlightOverlap`, `TrackedPacing`, `LeftoverWakeups` | the flight tracker as a class over maps and lists, what each step leaves in them, its laws in every interleaving, how far it keeps admissions apart, tracker and pacing loop joined, and how wake-ups left over pass a boundary |
| `GroupId`, `Classifier`, `ClassifierSteps`, `ClassifierCaches`, `ClassifierHistory` | the group id, the registry with its two caches, what each operation does in terms of the configurations, their laws over every sequence of operations, and when they are transparent |

Code that works by updating state is a class or a method with loops, proved equal to a step function
or relation on values; the laws are lemmas about those. `PaceOutcome` and `Passes` are relations:
they admit every result Go's unstable `sort.Slice` may produce, so theorems about them hold for all.

## What comes out false of the code, and exactly when

- **Linear pacing can stall for as long as one likes.** A recreated pod queues behind every pod blocked
  at that moment, so what is set free depends on how evictions and readmissions interleave. Take a
  lone linear pacer whose starting pods leave a gap to the next multiple of the step, and a blocked
  pod. Some run of the loop frees a pod however long the queue is, for passes that follow each other
  quickly take pods out of the queue; every run does, once a pod is back, if and only if no more pods
  are blocked than the gap is wide (`LinearLoopProgress`). Beyond the gap any number of passes may free
  nothing (`LinearMayLivelock`). Passes that each wait until their pods are back never free anything
  from twice the gap on, whatever their interleavings (`LinearLivelock`), and below that some can
  (`LinearPassProgress`). The pacer's comment (pkg/pacer/linear/pacer.go:21-23) promises 5 => 10 => 15.
- **Evicted pods can bounce under exponential pacing too.** The next pass may list before the pods of
  the last one are back, and selects as many again. Of the pods back at any moment exactly as many
  start as all pacers had room for (`ExponentialLaw`); a pass that waits has no bounce (`NoBounce`).
- **A composite can stall although each of its pacers would let a pod go.** A linear pacer ahead of
  the first sort takes its prefix of another order than the pacers after it. No slice of pods with
  distinct UIDs and creation times stalls if and only if the least count ahead of the first sort and
  the least count from there on exceed the blocked pods together (`NeverStallsIff`). With tied creation
  times every sort may deal the slice anew, and none stalls if and only if the shortfalls of the parts
  between sorts add up to less than the blocked pods (`NeverStallsDespiteTiesIff`). The stalls by ties
  rest on the documentation of `sort.Slice`, which promises no order for equal elements; an
  implementation that leaves a sorted slice alone has fewer.
- **The flight tracker does not serialise admissions.** A wake-up sent for a flight nobody waited on
  stays behind and later releases a waiter early. A group goes beyond one airborne admission exactly
  when a waiter wakes up or gives up while one is airborne (`OverlapRises`); over a run the overlap is
  bounded by the times the list was found empty and the waits given up (`OverlapIsBounded`), and that
  bound is reached for every number (`OverlapIsUnbounded`).
- **`maxBlockedDuration` is not enforced.** The lookup by group id leaves the policies at zero, so the
  composed reconciler evicts what the pacers let go and nothing else (`Reconciler.Reconcile`), although
  the repository's README (line 38) promises an automatic start.
- **`UpdateConfig` cannot keep an expression.** The duplicate check counts the configuration being
  replaced (`UpdateMustChangeExpression`), and an update of an unknown name stores a configuration
  no classification consults (`ConsultedUnlessUpdateOfUnknown`).
- **Pacers are cached by key alone.** Classification is independent of history if and only if no two
  fresh classifications make different pacers for one key (`HistoryFreeIff`); equal factories wherever
  configurations share a key are enough (`EqualFactoriesSuffice`).
- The evicter's comment (pkg/controller/flightracker.go:231) says oldest to newest; the loop walks
  from the back, and so does `ForceLand`.
- A bypassed pod is said to count against pacing (README line 86); a bypass match skips the
  configuration, so the pod is not labelled for it (`KeyOf`).

## Model

| member | source | states |
|---|---|---|
| Pacers.CalculateAllowedCount | pkg/pacer/exponential/pacer.go:68-84 | the allowed number lies between 0 and blocked, never takes starting past the desired number, and falls short of it only when no blocked pod is left; no other number does |
| Pacers.ExponentialPace | pkg/pacer/exponential/pacer.go:32-62 | from maxStagger ready pods on, everything goes and the caller's slice is not touched; below, the slice is sorted in place and its head goes |
| Pacers.ExponentialInNumbers | pkg/pacer/exponential/pacer.go:32-84 | one call in the numbers of its configuration: what goes, in which order, from maxStagger on and below it, for minInitial and for the multiple rounded up |
| Pacers.LinearPace | pkg/pacer/linear/pacer.go:36-55 | from maxStagger ready pods on, everything goes; below, the head of the slice as it stands, which is never touched |
| Pacers.LinearInNumbers | pkg/pacer/linear/pacer.go:36-55 | one call in the numbers of its configuration: up to the next multiple of the step, nothing once the starting pods fill it |
| Pacers.NegativeStepCount | pkg/pacer/linear/pacer.go:47-51 | a negative step lets nothing start below maxStagger |
| Pacers.FairRelease | pkg/pacer/exponential/pacer.go:43-61 | for every outcome of the sort: no released pod is newer than a withheld one, and the two together are exactly the blocked pods |
| Pacers.OldestGo | pkg/pacer/exponential/pacer.go:43-61 | no released pod is newer than a blocked one that is not released |
| PacingProtocol.LinearBatchOvershoots | pkg/pacer/linear/pacer.go:47-54 | exactly when one batch takes ready plus starting past the step boundary, and that ready plus allowed never passes it |
| Pods.SortByCreation | pkg/pacer/exponential/pacer.go:45-48 | in place, a permutation in order of creation |
| Pods.SortIsUnique | pkg/pacer/exponential/pacer.go:45-48 | with distinct creation times an unstable sort still has one outcome |
| Composite.CountVotes | pkg/pacer/composite.go:39-41 | one more result adds one vote to each UID in it and none to any other; absent means no vote |
| Composite.CompositePacer.Pace | pkg/pacer/composite.go:31-51 | the pacers run in turn on one shared slice, each on what the one before left; what is returned are the pods of the final slice with a vote from every pacer |
| Composite.ExactIntersection | pkg/pacer/composite.go:31-51 | with distinct UIDs a pod is allowed if and only if it was blocked and every inner pacer allows it |
| Composite.ChosenKeepsOrder | pkg/pacer/composite.go:43-48 | what is allowed comes in the order of the final slice |
| Composite.ChosenNeedsRoom | pkg/pacer/composite.go:31-51 | if anything is allowed every inner pacer has room for a pod |
| Composite.PassesKeepPods | pkg/pacer/composite.go:34-35 | in-place sorting neither loses nor repeats a pod between one pacer and the next |
| SharedOrder.PrefixMinimum | pkg/pacer/composite.go:34-49 | unless a linear pacer precedes the first sort, and if ties are absent or only one pacer sorts, the composite allows exactly the first min-of-all-counts pods of the final order |
| SharedOrder.ProgressIffAllProgress | pkg/pacer/composite.go:34-49 | such a composite lets something go if and only if each inner pacer alone would |
| Stalls.ChosenIsOverlap | pkg/pacer/composite.go:34-49 | what any composite allows, wherever its linear pacers stand: the pods in a prefix of the slice as it came and in a prefix of the slice as it was left |
| Stalls.LinearLeadingSortStalls | pkg/pacer/linear/pacer.go:53-54 | the failing family: every newest-first slice no shorter than the two prefixes together, where nothing is allowed |
| Stalls.NeverStallsIff | pkg/pacer/composite.go:34-49 | every outcome on every slice of pods distinct in UID and creation time lets something go if and only if the two least counts together exceed the blocked pods; computable from the configuration and the counts |
| Ties.TiesCanStall | pkg/pacer/exponential/pacer.go:45-48 | on every tied slice, an outcome the sort's documentation admits allows nothing as soon as the shortfalls of the parts between sorts add up to the slice |
| Ties.NeverStallsDespiteTiesIff | pkg/pacer/composite.go:34-49 | every outcome on every slice of pods distinct in UID lets something go if and only if those shortfalls add up to less than the blocked pods |
| SharedOrder.LonePacer | pkg/pacer/composite.go:31-51 | a composite of one pacer allows what that pacer allows, ties or not |
| SharedOrder.AdmissionThreshold | pkg/controller/admission.go:153-158 | a fresh pod, first for who sorts and last for who does not, is allowed if and only if each pacer's threshold on the three counts and its position in the chain is met |
| SharedOrder.ExponentialThreshold | pkg/pacer/exponential/pacer.go:32-84 | a fresh pod has a place if and only if maxStagger is reached or fewer are starting than wanted |
| SharedOrder.LinearThreshold | pkg/pacer/linear/pacer.go:38-54 | it has one if and only if maxStagger is reached, or ready plus starting is below the next multiple of the step and, unless sorted to the front, ready plus blocked is too |
| SharedOrder.SortsBeforeInNumbers | pkg/pacer/composite.go:34-35 | it is sorted to the front exactly if an earlier pacer is exponential and below its maxStagger |
| Standing.IsPodReady | pkg/controller/podgroupstandingclassifier.go:64-72 | true exactly when some condition is Ready and True |
| Standing.ClassifyPodGroup | pkg/controller/podgroupstandingclassifier.go:32-61 | each list holds exactly the pods of its standing, in listing order |
| Standing.StandingInFields | pkg/controller/podgroupstandingclassifier.go:47-56 | each standing by the pod's own flag and conditions: a blocked pod is blocked even if it is ready |
| Standing.FilterInOrder | pkg/controller/podgroupstandingclassifier.go:47-56 | each list keeps the listing's order and leaves no pod of its standing out |
| Standing.StandingsPartition | pkg/controller/podgroupstandingclassifier.go:47-56 | the three standings together are the listing: no pod lost or counted twice |
| Admission.HandlePodAdmission | pkg/controller/admission.go:108-176 | on every path, what becomes of labels and blocking and which errors come back; a pod is let through or blocked only as the composite decides on the snapshot |
| Admission.HandledWithoutDecision | pkg/controller/admission.go:110-149 | which pods pass untouched, which are blocked at once, and what an error leaves behind, label by label |
| Admission.HandledWithDecision | pkg/controller/admission.go:134-175 | a paced pod carries the group's id, is labelled as staggered if it is blocked, and is otherwise as it came |
| Admission.UnblockedIffAllowed | pkg/controller/admission.go:147-175 | the pod itself stays unblocked if and only if the group has pacers and each has a place for it |
| Admission.Default | pkg/controller/admission.go:89-106 | bypassing failures hides the error and changes nothing about the pod, which is left as the lemmas above say |
| Admission.DecisionIsThreshold | pkg/controller/admission.go:153-170 | whatever order the listing has and however the sort breaks ties, the decision depends on the counts only: approved if and only if every inner threshold is met |
| Admission.ApprovalNeedsRoom | pkg/controller/admission.go:153-170 | an approval proves room in every pacer, even if names clash |
| PacingProtocol.NextKeepsInv | pkg/controller/admission.go:147-175 | deciding on a stale snapshot, committing, abandoning, becoming ready, eviction: each keeps every inner boundary within K - 1 |
| PacingProtocol.RunKeepsInv | pkg/controller/admission.go:147-175 | so every state of every run does |
| PacingProtocol.OvershootBound | pkg/controller/admission.go:147-175 | with at most K overlapping admissions, starting plus approved never exceeds max(minInitial - ready, ceil(ready * multiplier)), nor ready plus both the next multiple of the step, by more than K - 1; K = 1 is exact |
| PacingProtocol.AdmissionIsDecideAndCommit | pkg/controller/admission.go:147-175 | the protocol's decision and commit are what admission does: the pod it leaves, named by the API server, is the pod stored, blocked exactly if denied |
| OvershootReached.OvershootIsReached | pkg/controller/admission.go:147-175 | the bound is sharp: for every pacer that starts anything, every number of ready pods it paces at and every K, some run reaches it |
| Rounds.ReadmitIsProtocolSteps | pkg/controller/admission.go:147-175 | a readmission is a decide and a commit of the protocol with K = 1 |
| Rounds.ChosenWithinEveryCount | pkg/controller/reconciler.go:115-133 | a pass evicts no more pods than any inner pacer allows |
| Rounds.LinearSelection | pkg/controller/reconciler.go:109-133 | under one linear pacer a pass evicts the first blocked pods of the listing, as many as the configured numbers say |
| Rounds.ExponentialSelection | pkg/controller/reconciler.go:109-133 | under one exponential pacer it evicts the oldest, as many as the configured numbers say |
| Rounds.PassCounts | pkg/controller/reconciler.go:115-133 | the counts along a pass are fixed by the counts before and the schedule of evictions, refusals and readmissions, whatever names, orders and ties do |
| Rounds.NoBounce | pkg/controller/reconciler.go:115-133 | with exponential pacers, at any moment of any interleaving of a pass that waits for its pods, blocked has fallen by the number evicted and starting risen by the number back: every evicted pod is admitted |
| PassRuns.SomePass | pkg/controller/reconciler.go:115-133 | from any pods, whatever the pacers, a pass can be completed with every eviction accepted, evicting all first or one by one |
| LinearRounds.LinearPass | pkg/pacer/linear/pacer.go:36-55 | how many pods a pass that waits frees under a linear pacer: all that fit or none, in any interleaving, up to the gap and from twice the gap on; in between, what each of the two extreme schedules frees, refused evictions included |
| LinearRounds.LinearPassProgress | pkg/pacer/linear/pacer.go:36-55 | exactly when every interleaving of a pass that waits makes progress, and exactly when some does |
| LinearRounds.FreedOnSchedule | pkg/pacer/linear/pacer.go:36-55 | passes of both extreme schedules exist, with the numbers they free |
| LinearRounds.LinearLivelock | pkg/pacer/linear/pacer.go:36-55 | over any number of passes, each interleaved in any way and waiting for its pods, a queue of twice the gap or more does not move |
| LinearRounds.LinearMayLivelock | pkg/pacer/linear/pacer.go:36-55 | with any queue longer than the gap there are any number of passes that free nothing |
| Loops.LoopStepCounts | pkg/controller/reconciler.go:55-133 | what each step of the loop does to the counts: a pass begun while pods are away, an eviction, a refusal, a readmission |
| Loops.PassIsRun | pkg/controller/reconciler.go:55-133 | a pass that waits for its pods is one run of the loop |
| Loops.ExponentialLaw | pkg/controller/reconciler.go:55-133 | however passes, evictions, refusals and readmissions interleave, of the pods back exactly as many start as all exponential pacers had room for, and the others are blocked again |
| Loops.BouncesBeyondRoom | pkg/pacer/exponential/pacer.go:68-84 | nothing has bounced if and only if no pacer has had more pods back than room |
| LinearLoops.LinearRun | pkg/pacer/linear/pacer.go:36-55 | in every run no more pods are freed than there is room below the boundary, and with no more blocked or away than the gap is wide, min(back, room) are |
| LinearLoops.LinearRunFrees | pkg/pacer/linear/pacer.go:36-55 | from any queue some run frees as many pods as any run can |
| LinearLoops.LinearLoopProgress | pkg/pacer/linear/pacer.go:36-55 | exactly when some run frees a pod, and exactly when every run does once a pod is back |
| Drain.SelectedIsMinimum | pkg/controller/reconciler.go:115-133 | a pass asks for exactly the least inner count of evictions, ties or not unless two pacers sort |
| Drain.RoundCounts | pkg/controller/reconciler.go:115-133 | what a round does to ready, starting and blocked, partly refused evictions included |
| Drain.RoundBlocksNone | pkg/controller/reconciler.go:115-133 | under exponential pacing no round blocks a pod that was not blocked before it |
| Drain.DrainProgress | pkg/controller/reconciler.go:115-133 | from any pods, with an eviction accepted per pass: none is lost and each round takes one blocked pod away, the first aside if pods were starting |
| Drain.DrainTerminates | pkg/controller/reconciler.go:115-133 | after as many rounds as pods were blocked, and one more if some were starting, all pods are ready |
| Drain.DrainIsExponential | pkg/pacer/exponential/pacer.go:68-84 | after k rounds at least min(N, ready * (1 + m)^k) pods are ready, from none ready at least min(N, minInitial * (1 + m)^(k - 1)) |
| DrainRuns.SomeDrain | pkg/controller/reconciler.go:115-133 | from any pods there are runs of rounds of any length |
| DrainRuns.AnyPodsDrain | pkg/controller/reconciler.go:115-133 | so any pods have a run of that many rounds under generous exponential pacers, and it leaves all of them ready |
| Drain.SaturatedRoundReleasesAll | pkg/pacer/exponential/pacer.go:34-37 | one round after MaxStagger every pod is ready, whatever the creation times |
| Reconciler.EvictAll | pkg/controller/reconciler.go:124-133 | the recorded keys are exactly the namespaces and names of pods gone, refused evictions left out |
| Reconciler.ReconcileGroup | pkg/controller/reconciler.go:109-167 | for any policy: whom it evicts; that it is done exactly if a pod of the request's name and namespace was let go and is gone, or its deadline passed and it is; and that a requeue is within the resync time and the time left to a pending deadline, and equal to one of them |
| Reconciler.Reconcile | pkg/controller/reconciler.go:55-169 | with the real classifier only pods the cached group's pacers let go are evicted; it is done exactly if the request's own pod is gone, else it asks for another call in a minute, deadline or not |
| Reconciler.InterestingInFields | pkg/controller/reconciler.go:70-97 | which pods it looks at, label by label |
| Reconciler.SelectionIsSafe | pkg/controller/reconciler.go:115-133 | evicted pods are blocked pods of this pass's listing, none of them twice |
| FlightTracker.AdmissionFlightTracker.constructor | pkg/controller/flightracker.go:61-67 | a tracker starts with nothing tracked or seen |
| FlightTracker.AdmissionFlightTracker.WaitOne | pkg/controller/flightracker.go:73-126 | up to the wait: the flight is tracked, and the caller returns at once exactly if it is alone |
| FlightSteps.ArrivalInFields | pkg/controller/flightracker.go:79-125 | the flight stands last, under the pod's name or else its generate-name; who waits and who returns; no other list changes |
| FlightTracker.AdmissionFlightTracker.Reconcile | pkg/controller/flightracker.go:130-207 | two backward searches land at most one flight, mark the pod seen and start one sender; not found clears the seen mark through the index |
| FlightSteps.ExactNameLands | pkg/controller/flightracker.go:168-201 | the newest flight under the pod's name is the one removed, and no other; the pod is seen and indexed, one wake-up starts |
| FlightSteps.GenerateNameLands | pkg/controller/flightracker.go:184-201 | failing that, the newest under its generate-name |
| FlightSteps.NoFlightLands | pkg/controller/flightracker.go:164-204 | failing that too, or for a pod seen before, nothing changes |
| FlightSteps.NothingToLand | pkg/controller/flightracker.go:146-162 | nor for a failed lookup, a pod without a group, or a group without a list |
| FlightSteps.GoneInFields | pkg/controller/flightracker.go:139-145 | a pod observed gone leaves the seen pods of the list it is indexed to, and nothing else changes |
| FlightSteps.WakeInFields | pkg/controller/flightracker.go:120-125 | a wake-up received takes one sender and one waiter, a wait given up one waiter |
| FlightTracker.AdmissionFlightTracker.DropUnused | pkg/controller/flightracker.go:218-227 | the lists without flights and seen pods go, those and no others; their channels stay with whoever still uses them |
| FlightTracker.AdmissionFlightTracker.EvictPass | pkg/controller/flightracker.go:213-251 | a whole pass, in any order of the map, is the specified step |
| FlightSteps.PassInFields | pkg/controller/flightracker.go:213-251 | which list goes and where its channel stays; which flights of the others stay, in order, with a wake-up for each that does not; a list emptied by the pass stays |
| FlightSteps.PassMakesNothing | pkg/controller/flightracker.go:218-249 | a pass makes no list and touches no other key's channels |
| FlightTracker.ForceLand | pkg/controller/flightracker.go:231-248 | removing while walking from the back leaves exactly the flights within the limit, in order, and starts one sender for each removed |
| FlightTracker.FindFromBack | pkg/controller/flightracker.go:173-182 | the search finds the newest match, or none |
| FlightProperties.Conservation | pkg/controller/flightracker.go:73-126 | in every interleaving, on every live or dropped channel: senders + flights = waiters + timed out + immediate returns |
| FlightProperties.NoLostWakeup | pkg/controller/flightracker.go:196-248 | once no flight of a channel is out, dropped list or not, every blocked admission has a wake-up coming and receiving them frees all |
| FlightOverlap.OverlapRises | pkg/controller/flightracker.go:111-125 | a step takes a group beyond n airborne admissions if and only if n are and a waiter wakes up or gives up; arrivals, landings and evicter passes never do |
| FlightOverlap.OverlapIsBounded | pkg/controller/flightracker.go:111-125 | over a run no more are airborne than times the list was found empty or a wait was given up |
| FlightOverlap.OverlapIsUnbounded | pkg/controller/flightracker.go:199-201 | that bound is reached: for every n, a run without time-out or forced landing with n + 1 airborne |
| FlightProperties.KeptIsSuffix | pkg/controller/flightracker.go:229-249 | an evicter pass leaves exactly the newest suffix: all before it are over the limit, all in it are not |
| FlightProperties.AgeBound | pkg/controller/flightracker.go:213-251 | with passes every half limit no flight is ever older than one and a half, and lists stay in time order |
| FlightProperties.WakesInTime | pkg/controller/flightracker.go:213-251 | one and a half limits after a group's last admission all its waiters have a wake-up coming |
| FlightProperties.LandingIsNewest | pkg/controller/flightracker.go:168-195 | the newest flight of the exact name, else the newest of the generate-name, else none |
| FlightProperties.LandsAtMostOnce | pkg/controller/flightracker.go:164-201 | between two not-found observations a pod lands at most one flight of a group, across any evicter passes |
| FlightProperties.IndexedUnlessKeyChanges | pkg/controller/flightracker.go:139-145 | a step keeps the seen index coherent if and only if no pod lands under a second key while seen under a first |
| FlightProperties.IndexedThroughRun | pkg/controller/flightracker.go:139-145 | so it is coherent through every run in which pods keep their key while seen |
| FlightProperties.UnusedListIsReclaimed | pkg/controller/flightracker.go:219-227 | flights gone and seen pods observed gone: the next pass drops the list |
| FlightProperties.StaleSeenLeaks | pkg/controller/flightracker.go:139-145 | a seen mark indexed elsewhere keeps its list for ever, whatever happens |
| FlightProperties.StaleSeenIsReached | pkg/controller/flightracker.go:197-198 | four steps from the start lead there, for any two keys and any name |
| TrackedPacing.NextKeepsAccounts | pkg/controller/admission.go:139-147 | a step of the tracker, whatever it serves, or of the loop keeps the accounts: admissions past WaitOne whose pod was not observed, and wake-ups under way, are as many as lists found empty, waits given up, missing names and forced landings |
| TrackedPacing.ProjectsToProtocol | pkg/controller/admission.go:139-175 | a joint step is a protocol step whose overlap is within the admissions past WaitOne |
| TrackedPacing.LifetimeOvershoot | pkg/controller/admission.go:139-175 | over each lifetime of a group's list, from a moment with nothing outstanding, the overlap is at most the number of those events since then, and if they are K at most every pacing bound with K holds |
| TrackedPacing.TrackedOvershoot | pkg/controller/admission.go:139-175 | the same over whole runs |
| TrackedPacing.OneBurstIsExact | pkg/controller/admission.go:139-175 | a burst on a list made anew, with no wait given up and nothing landed by force, passes no pacer's boundary at all |
| LeftoverWakeups.LeftoversOvershoot | pkg/controller/flightracker.go:199-201 | wake-ups left over carry every pacer past its boundary: a run of tracker and loop has any number of admissions approved at once, with no wait given up and nothing landed by force |
| GroupId.SplitJoin | pkg/controller/classifier.go:245-245 | cutting a joined list at commas gives the list back |
| GroupId.RenderIsInjective | pkg/controller/classifier.go:236-249 | equal renderings come from equal pacer ids and equal configuration names, if ids have no comma and names neither comma nor "(" |
| GroupId.PacerIdIsKindAndKey | pkg/pacer/exponential/pacer.go:64-66 | two pacer ids are equal exactly if kind and key are |
| ClassifierSteps.IdInText | pkg/controller/classifier.go:236-249 | the text of the id of a group of one pacer |
| ClassifierSteps.IdOfMoreInText | pkg/controller/classifier.go:236-249 | and of more: pacer ids in brackets, configuration names in parentheses, in order |
| GroupId.CommasCollide | pkg/controller/classifier.go:236-249 | the comma condition on keys is needed: for every choice of texts two different groups with one id |
| GroupId.NameCommasCollide | pkg/controller/classifier.go:236-249 | so is that on config names |
| GroupId.ParenthesesCollide | pkg/controller/classifier.go:236-249 | and the condition on "(" |
| Classifier.PodClassifier.constructor | pkg/controller/classifier.go:56-63 | a classifier starts empty |
| Classifier.PodClassifier.CheckConfig | pkg/controller/classifier.go:209-234 | accepted exactly if the expression is not empty, parses, and no stored configuration has it |
| Classifier.PodClassifier.AddConfig | pkg/controller/classifier.go:65-81 | whole new state, and success exactly for a new name with an acceptable expression |
| ClassifierSteps.AddTakesEffectIff | pkg/controller/classifier.go:65-81 | an addition takes effect if and only if the name is new and the expression is not empty, parses and is in use nowhere; the configuration is then consulted last |
| Classifier.PodClassifier.RemoveConfig | pkg/controller/classifier.go:83-101 | whole new state, the other names in order, and success exactly for a stored name |
| ClassifierSteps.RemoveInFields | pkg/controller/classifier.go:83-101 | the name is cut out, the others keep their order, the caches stay |
| ClassifierSteps.RemoveUnknown | pkg/controller/classifier.go:87-89 | an unknown name changes nothing |
| Classifier.PodClassifier.UpdateConfig | pkg/controller/classifier.go:103-116 | whole new state, and success exactly for an acceptable expression, stored name or not |
| Classifier.PodClassifier.GroupingKey | pkg/controller/classifier.go:134-156 | which configurations a pod skips, and its key under the others |
| ClassifierSteps.KeyInFields | pkg/controller/classifier.go:134-156 | a pod has a key if and only if it carries every selected label, not every label of a bypass selector that is not empty, and some result is not empty; the key is the results in order |
| ClassifierSteps.MatchesInOrder | pkg/controller/classifier.go:132-169 | the matching configurations are taken in the order they were added, none left out, each with a pacer of its key |
| Classifier.PodClassifier.Classify | pkg/controller/classifier.go:118-194 | id and pacers are those of the cached group, the policy is the least positive duration of the matching configurations, and only the caches change |
| ClassifierSteps.ClassifyInFields | pkg/controller/classifier.go:159-183 | what a classification adds to the two caches, and that it replaces nothing in them |
| ClassifierSteps.FirstMakesPacer | pkg/controller/classifier.go:159-168 | the pacer of a key has the configuration of the first match that gives the key; later matches share it |
| ClassifierSteps.ExponentialGroupInNumbers | pkg/controller/classifier.go:159-168 | so the pacer handed out for an exponential configuration allows what that configuration's own minInitial, multiplier and maxStagger say |
| ClassifierSteps.LinearGroupInNumbers | pkg/controller/classifier.go:159-168 | and for a linear one what its step and maxStagger say |
| Classifier.PodClassifier.ClassifyByGroupID | pkg/controller/classifier.go:196-207 | id and pacers of a cached group, never a policy |
| Classifier.AggregatePolicy | pkg/controller/classifier.go:251-262 | the least positive duration, zero if none is |
| ClassifierSteps.PolicyInNumbers | pkg/controller/classifier.go:251-262 | the same by the configurations themselves: no positive duration is less, one is equal, and zero only if none is positive |
| Classifier.LeastPositiveIsUnique | pkg/controller/classifier.go:251-262 | so it does not depend on the order of the configurations |
| ClassifierCaches.NextKeepsRegistry | pkg/controller/classifier.go:65-116 | every operation keeps names distinct and stored, and expressions pairwise different |
| ClassifierCaches.ExecKeepsRegistry | pkg/controller/classifier.go:65-116 | so does every sequence of operations, refused ones and expiries included |
| ClassifierCaches.ConsultedUnlessUpdateOfUnknown | pkg/controller/classifier.go:103-116 | an operation keeps every stored configuration consulted if and only if it is not an accepted update of an unknown name |
| ClassifierCaches.ExecKeepsConsulted | pkg/controller/classifier.go:103-116 | over runs without such updates, stored and consulted names are the same |
| ClassifierCaches.UpdateTakesEffectIff | pkg/controller/classifier.go:103-116 | an update takes effect if and only if its expression is not empty, parses and is in use nowhere, the replaced configuration included; what else it leaves alone |
| ClassifierCaches.UpdateMustChangeExpression | pkg/controller/classifier.go:103-116 | so an update that keeps a configuration's own expression is always refused |
| ClassifierCaches.ExecKeepsCaches | pkg/controller/classifier.go:159-183 | after any operations without expiry each cached group holds the pacers the pacer cache maps its keys to |
| ClassifierCaches.CachedGroupIsFresh | pkg/controller/classifier.go:171-183 | a cached group found by id has the pacers a fresh composite would get now |
| ClassifierCaches.CachesCohere | pkg/controller/classifier.go:159-183 | after any such operations, classifying a pod, and looking its group up later, gives the composite that would be built afresh |
| ClassifierCaches.PacersAreSticky | pkg/controller/classifier.go:159-166 | until its key expires no operation replaces a cached pacer, not even a changed configuration |
| ClassifierHistory.CachesAreTransparent | pkg/controller/classifier.go:132-193 | with configurations fixed and no key for which fresh classifications make different pacers, id and pacers depend on the pod alone, whatever was classified or expired in between |
| ClassifierHistory.SharedKeyDependsOnHistory | pkg/controller/classifier.go:51-52 | any such key makes the answer depend on history: one earlier classification changes it |
| ClassifierHistory.HistoryFreeIff | pkg/controller/classifier.go:132-193 | so independence of history and one pacer per key are the same thing |
| ClassifierHistory.EqualFactoriesSuffice | pkg/controller/classifier.go:159-166 | configurations may share keys as long as those that do have equal factories |

## Left out

- PacingProtocol.OvershootBound: readiness is never lost and no bypassed error admits a pod in these runs; either breaks the bound in an obvious way.
- PacingProtocol.RunKeepsInv: the pacers of the group are fixed during a run.
- Rounds.NoBounce: for a pass whose pods are all back before the next pass lists; ExponentialLaw says what happens otherwise.
- LinearRounds.LinearPass: likewise for a pass that waits; LinearRun is the statement without waiting.
- LinearRounds.LinearPassProgress: likewise, and the schedules between the two extremes are only bounded by them.
- LinearRounds.LinearLivelock: likewise; passes that do not wait can get past such a queue, as LinearRunFrees shows.
- Loops.ExponentialLaw: nothing becomes ready, no pod is deleted and no pod outside the evicted ones arrives during such a run; requests are served one after the other, listings show the current pods, and each readmission is stored before the next is decided. Overlapping admissions are covered by OvershootBound.
- LinearLoops.LinearRun: the same, for a lone linear pacer.
- Drain.DrainIsExponential: a round is one pass that waits for its pods and then until everything that was started is ready and no eviction is refused; refused ones are covered by DrainTerminates. A composite in which two pacers sort needs distinct creation times among the pods blocked at the start, as TiesCanStall shows.
- Pacers.CalculateAllowedCount: `math.Ceil(float64(ready) * multiplier)` is taken over exact reals, and integers are unbounded.
- Pacers.LinearPace: a zero step is a division panic in Go and is excluded; the two conversions to float64 around `math.Min` are taken as exact.
- Pods.SortByCreation: the order in which `sort.Slice` leaves ties is not fixed; the method picks one, the relations allow all.
- Admission.HandlePodAdmission: the classifier's answer and the listing are parameters; the wait in the flight tracker, whose result the source only logs, is a step of TrackedPacing instead; blocking a pod never fails.
- Admission.HandledWithDecision: the label names are the defaults; a configured enable label is not part of this model.
- Reconciler.ReconcileGroup: the clock is read once, and the eviction API is a function from the pod to whether it is gone; the eviction of a pod by its deadline does not check that it is blocked, as in the source.
- FlightTracker.AdmissionFlightTracker.WaitOne: stops where the caller starts to wait; receiving a wake-up and timing out are the steps Deliver and TimeOut, and goroutines blocked on a channel are counted, not modelled one by one.
- FlightProperties.AgeBound: the evicter is never late and the clock never goes back.
- TrackedPacing.TrackedOvershoot: one group's pacing beside the whole tracker, and every landing of the group is of a pod admitted in the run.
- GroupId.RenderIsInjective: md5 is taken as injective, so the rendering stands for the id.
- Classifier.PodClassifier.GroupingKey: JSONPath parsing and evaluation are parameters, label selectors are equality maps as `SelectorFromSet` builds them.
- ClassifierHistory.CachesAreTransparent: cache expiry is an arbitrary step rather than a 30-minute timer, and happens between classifications.
- The Kubernetes client, webhook server, leader election, metrics, logging, command line and configuration loading: input and output only.
- handleJobAdmission: the failure rule it adds to a job is not part of this model.
- The node-selector and stub-pod blockers: a blocked flag stands for them.
- Composite and pacer errors: no pacer of the repository returns one.
