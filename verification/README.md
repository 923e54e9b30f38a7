# Headroom: a verified model

Headroom shares a node's idle CPU out as pod CPU limits. This project models the parts of it whose
correctness is not visible in any one function, and proves what they promise.

## What is modelled

**Order keys for the work queue** (`scripts/queue.py`). A rank is a string: a magnitude head, an integer
part whose length the head fixes, and a base-36 fraction. Ranks compare as strings. `RankText` defines that
comparison, `RankInteger` the integer parts and their two steps (with the carry and borrow loops),
`RankFraction` the recursive midpoint, `RankMint` the check and the mint, and `RankStore` a store of items
under insertions and merges.

**What a pod's limit should be** (`internal/policy/policy.go`, `internal/controller/podinput.go`,
`internal/eligibility/eligibility.go`). `Policy` computes a node's slack and each pod's target;
`PolicyTargets`, `PolicyBounds`, `PolicyMonotone` and `PolicySlack` prove its promises. `Eligibility`,
`Split`, `SplitShares` and `LimitRange` read a pod's containers, split a target over them and turn LimitRange
rules into a cap. `Admission`, `PodResize`, `Qos` and `PodInputs` compose these end to end: what is written is
what the API server accepts, keeps the pod's QoS class, and reads back as the target.

**The node reconciler** (`internal/controller/node_controller.go`). `ReconcilePass` is one pass as a function
of everything it observes: the listed pods, every clock reading, the token bucket's answers and the outcome of
every patch. `PassReads` says what it makes of the pods, `ApplyLoop` what it sends and reports, and
`PassWrites` what its decisions come to once written. `BackoffRuns`, `Requeue`, `Retries`, `NodeRun` and
`Convergence` prove properties of whole runs of passes. `SeriesIndex` is the index of exported per-pod series
under any interleaving of syncs and forgotten nodes. `Reconciler` is the class itself: its methods update the
backoff map, the series index and the debounce in place, with the source's loops, and each is proved to do
what those functions say.

**Two small protocols.** `QueueIds` is ID allocation by creating refs on a shared remote
(`scripts/alloc-queue-id.sh`), with any number of sessions interleaving and pushes that fail or lose their
answer. `VpaPoller` is the cached list of VerticalPodAutoscalers with its bounded event buffer
(`internal/vpa/poller.go`), and a consumer that reads again on events.

`Sums`, `Sets` and `Options` hold the small arithmetic, counting and optional-value facts the others share.

### Conventions

- Floating-point values are exact reals. `math.Round` is rounding half away from zero. The fractional parts
  in the container split are the remainders `target * request mod total`, which order the same way.
- Go's integer division is truncation toward zero (`Policy.TruncDiv`).
- LimitRanger's own ratio comparison is done in floating point; it is an arbitrary predicate here
  (`LimitRange.Past`), so admission is proved however it rounds. Where a theorem says that LimitRanger *reads*
  a target as admitted, it assumes that for positive requests the comparison is off by less than one milli-core
  for limits up to that target (`Admission.OffByLessThanOne`). The exact quotient is, and so is any quotient
  that is at most one part in that target too high (`Admission.ExactPastQualifies`,
  `Admission.SmallErrorQualifies`).
- A container rule of a LimitRange is asked of the containers a resize writes to, those that request CPU
  (`Admission.Admits`). The API server asks it of the others too, whose limits a resize leaves as they are.
- A pod key is a pair of namespace and name rather than the two joined by a slash.
- A pass is atomic. Clock readings, random draws, patch outcomes and API answers are inputs of the step that
  observes them; theorems quantify over all of them.
- Container names within a pod are unique and CPU requests are non-negative, as the API server enforces.

### Where the code and its documentation part

- `check_rank` reads the characters of the fraction only, so "a!" passes and keys are minted from it
  (`RankMint.StrayIntegerIsAccepted`). `RankMint.CheckRankAccepts` says exactly what passes, and
  `RankMint.MintFromAccepted` from which of the bounds that pass minting does its job.
- A comment there says that midpointing toward a trailing zero would not terminate. It does terminate, and
  lands above its upper bound (`RankFraction.TrailingZeroOvershoots`).
- `rank_series` takes one step more than it uses, so a series that ends on the very last key fails
  (`RankMint.RankSeries`).
- `docs/design.md` (line 485) gives limit = request where there is no slack. The code still rounds the
  request to the grid, so 106m becomes 110m; `PolicyBounds.NoSlackTarget` says exactly when it is the request.
- The same line says that adding a pod never raises anyone else's limit. `Compute` alone promises that where
  some pod of the basis requests something (`PolicyMonotone.NewcomerNeverRaises`), and eligibility makes every
  node one of those (`NodeRun.ArrivalNeverRaises`). `PolicyMonotone.RisesFromNothing` says exactly when it
  would fail on inputs that eligibility never lets through.
- The branch of `ratioLimitMilli` for bounds past int64 is exact only from a thousand times past it
  (`Admission.RatioLimitIsExact`). Admission is proved for every target that no rule's product in between
  comes near (`Admission.FarFromInt64`).
- Events for the VPA view's consumer are dropped where the buffer is full, and it stays in agreement only as
  long as the buffer keeps up (`VpaPoller.KeepsUp`; `VpaPoller.AgreementIsKeepingPace` is the exact statement).
- A pod that moves to a node that reconciles first loses its exported series when its old node reconciles
  (`SeriesIndex.MovedPodLosesItsSeries`; `SeriesIndex.RunIsExact` says exactly when this happens).

## Model

| member | source | states |
|---|---|---|
| RankText.LessTotal | scripts/queue.py:268-271 | any two different ranks compare one way or the other as strings |
| RankText.LessTransitive | scripts/queue.py:268-271 | string order of ranks is transitive |
| RankInteger.IncrementInteger | scripts/queue.py:321-344 | the in-place carry loop computes the same key, or failure, as the recursive step |
| RankInteger.DecrementInteger | scripts/queue.py:347-370 | the in-place borrow loop computes the same key, or failure, as the recursive step |
| RankInteger.IntegerOrder | scripts/queue.py:287-300 | two integer parts compare as strings exactly as the numbers they denote, across heads of every length |
| RankInteger.IncrementAddsOne | scripts/queue.py:321-344 | the step yields an integer part denoting one more, through every carry and head change, and fails exactly at the top of the space |
| RankInteger.DecrementTakesOne | scripts/queue.py:347-370 | the step yields an integer part denoting one less, through every borrow and head change, and fails exactly at the bottom of the space |
| RankInteger.StepsAreInverse | scripts/queue.py:321-370 | away from the ends each step undoes the other |
| RankInteger.NothingBetweenSteps | scripts/queue.py:273-280 | no integer key lies strictly between a key and its successor |
| RankInteger.EndShapes | scripts/queue.py:259-263 | all keys lie between the two ends, and only "A" with 26 zeros and "z" with 26 last digits are the ends |
| RankInteger.KeysAreNumbers | scripts/queue.py:287-300 | integer parts correspond one to one, in order, to a contiguous interval of integers |
| RankFraction.ComputeMidpoint | scripts/queue.py:379-400 | counting the shared prefix in a loop gives the recursive midpoint |
| RankFraction.PrecedesIsLess | scripts/queue.py:373-376 | reading unwritten digits as zero orders fractions as their strings do |
| RankFraction.MidpointIsBetween | scripts/queue.py:379-400 | midpoint lands strictly between its bounds if and only if the lower precedes the upper, and then never ends in zero |
| RankFraction.MidpointIsShortest | scripts/queue.py:379-400 | no shorter fraction without a trailing zero lies strictly between the bounds |
| RankFraction.MidpointIsBalanced | scripts/queue.py:390-400 | the last digit lies in the middle of those that would fit in its place, give or take one |
| RankFraction.TrailingZeroOvershoots | scripts/queue.py:313-318 | toward a bound that ends in zero, midpoint terminates above that bound |
| RankMint.CheckRankAccepts | scripts/queue.py:303-318 | the check passes exactly the well-formed ranks and those whose only fault is in the integer part's characters |
| RankMint.StrayIntegerIsAccepted | scripts/queue.py:309-312 | a rank with a stray character passes, and a key is minted from it |
| RankMint.MintFromAccepted | scripts/queue.py:403-447 | of bounds that pass the check, in order, minting gives a well-formed rank strictly between them if and only if the one it works from is well formed: the upper one under an open bottom, else the lower one, unless that is at the top and the upper bound has another integer part |
| RankMint.MintBetween | scripts/queue.py:403-447 | the mint with the source's loops yields the same key or error as its specification |
| RankMint.MintIsBetween | scripts/queue.py:403-447 | for any two well-formed ranks in order, either end open, minting succeeds with a well-formed, unreserved rank strictly between them, at the exhausted top and above the reserved bottom too |
| RankMint.MintPrefersIntegers | scripts/queue.py:273-280 | between any bounds in order, either end open, where an integer key fits an integer key is minted: the lowest that fits above a lower bound, the highest below an upper bound alone, zero with none |
| RankMint.MintIsShortest | scripts/queue.py:434-447 | where no integer key fits, every rank strictly between the bounds has the minted one's integer part and is at least as long |
| RankMint.RankSeries | scripts/queue.py:450-457 | keys denote 0, 1, 2, ... in order; the series fails exactly when the step past its last key leaves the space |
| RankStore.MintNeedsOpenGap | scripts/queue.py:412-413 | in a sorted store a slot can be minted into exactly when its neighbours do not share a rank |
| RankStore.InsertKeepsOrder | scripts/queue.py:470-487 | an insertion keeps the store sorted by rank and id, and keeps distinct ranks distinct |
| RankStore.InsertKeepsDistinct | scripts/queue.py:403-447 | where ranks are distinct, an insertion succeeds at every position |
| RankStore.AnyInsertionsKeepStrictOrder | scripts/queue.py:403-447 | any sequence of insertions at any positions succeeds, loses no item and keeps ranks strictly increasing |
| RankStore.BelowIntegerKey | scripts/queue.py:415-429 | below an integer key the previous integer key is minted, except just above the reserved bottom |
| RankStore.HeadInsertsAreIntegers | scripts/queue.py:273-280 | head insertions into an empty store use integer keys only, until the bottom magnitude is reached |
| RankStore.TailInsertsAreIntegers | scripts/queue.py:273-280 | tail insertions into an empty store are the integer keys for 0, 1, 2, ..., up to the top |
| RankStore.HeadAndTailAreClear | scripts/queue.py:1840-1857 | the head and tail of a sorted store never mint a rank some row holds |
| RankStore.EmptyGapIsClear | scripts/queue.py:1847-1851 | from any given bounds, the minted key is held by no row of a store that has none strictly between them |
| RankStore.BoundsDoNotPinTheGap | scripts/queue.py:1853-1857 | for any two bounds some store of distinct ranks holds both and the key minted from them |
| RankStore.ListingIsUnique | scripts/queue.py:470-487 | the set of rows determines the listing, whichever side merged first |
| RankStore.MergeKeepsEachOrder | scripts/queue.py:470-487 | what a session saw in some order stays in that order in any store that holds it |
| RankStore.BlindInsertsMerge | scripts/queue.py:470-487 | two sessions inserting blindly into one gap merge, in either order, to both items in the gap, lower id first |
| Policy.Compute | internal/policy/policy.go:89-121 | the accumulating loops yield the node's aggregates and one decision for each managed pod, in order |
| Policy.DecisionsCover | internal/policy/policy.go:113-120 | a decision is made for exactly the managed pods |
| PolicyTargets.TargetReachesShare | internal/policy/policy.go:133-145 | with slack, a target exceeds its request by at least S*request/M and by at least min(floor, S/N), up to half a quantum and half a milli-core, unless the next limit up is over a cap |
| PolicyTargets.TargetWithinShare | internal/policy/policy.go:133-145 | ... and by no more than the larger of the two, up to as much, but for the quantum a pod is lifted by |
| PolicyTargets.TargetUnderCaps | internal/policy/policy.go:151-176 | every target is at its request, or under the node, the multiplier, the user's cap and the LimitRange cap, or lifted off its request by at most a quantum |
| PolicyTargets.TargetWithoutSlack | internal/policy/policy.go:127-131 | without slack a target is the request, or the grid point it rounds up to where every cap admits that, or what a pod is lifted to |
| PolicyTargets.TargetIsOnGrid | internal/policy/policy.go:165-190 | targets are grid points, the request, or a LimitRange's cap for a pod that must be off its request |
| PolicyTargets.LiftIsLeast | internal/policy/policy.go:179-190 | a lifted pod gets no more than the first grid point above its request |
| PolicyTargets.ApplyExactly | internal/policy/policy.go:192-210 | a patch is asked for exactly where the limit is not the target and is either not set or off by at least the band for that direction |
| PolicyTargets.ReasonIsTrue | internal/policy/policy.go:190-224 | the reason a decision carries holds of it |
| PolicyTargets.TargetsShareSlack | internal/policy/policy.go:133-145 | over the requests, the targets of the pods slack is shared among sum to at least S where no cap is near, and to at most 2S where none is lifted, up to half a quantum and half a milli-core a pod |
| PolicyTargets.DecisionsHandOut | internal/policy/policy.go:113-120 | where each of those pods gets a decision, the decisions sum to the requests and that |
| PolicyTargets.DecisionsInOrder | internal/policy/policy.go:113-120 | one decision for each managed pod, in the order listed |
| PolicyBounds.QuantizeBounds | internal/policy/policy.go:165-176 | quantizing stays between request and ceiling, and on the grid unless it ends at the request |
| PolicyBounds.TargetBounds | internal/policy/policy.go:151-191 | a target is at or above the request, above it where equality would make the pod Guaranteed, under every cap unless lifted, and under a LimitRange cap that leaves room even then |
| PolicyBounds.NoSlackTarget | internal/policy/policy.go:127-131 | without slack a target is within half a quantum above the request, and equals it exactly when the request rounds down or the next grid point is over a cap |
| PolicyBounds.NoSlackRoundsUp | internal/policy/policy.go:165-176 | two pods of 106m on a node of 200m leave no slack, and yet get a target of 110m |
| PolicyMonotone.DecideMonotone | internal/policy/policy.go:124-191 | less slack shared among more never raises a target, through share, floor, caps, quantization with step-back and lift |
| PolicyMonotone.NewcomerNeverRaises | internal/policy/policy.go:89-121 | where the basis requests something, binding any one pod to the node, managed, holding a share or unmanaged, never raises another's target |
| PolicyMonotone.NewcomersNeverRaise | internal/policy/policy.go:89-121 | nor does binding any number of pods |
| PolicyMonotone.RisesFromNothing | internal/policy/policy.go:127-143 | where the basis requests nothing, a newcomer raises a pod that requests nothing if and only if it brings a request to the basis, slack is left, and the floor it opens and the room under the caps both reach the grid |
| NodeRun.ArrivalNeverRaises | internal/controller/node_controller.go:285-367 | on a node as a pass reads it, no pod that arrives raises the target of one that shares the slack |
| PolicySlack.GroupShareIsByTotalRequest | internal/policy/policy.go:133-134 | a group's proportional burst depends on its total request alone, so splitting a workload into pods changes nothing |
| PolicySlack.SlackIsSharedOnceToTwice | internal/policy/policy.go:133-142 | the bursts sum to at least the slack and at most twice the slack |
| PolicySlack.RoundedSlackBound | internal/policy/policy.go:133-143 | in whole milli-cores the same holds up to half a milli-core for each pod |
| Eligibility.CollectResizable | internal/eligibility/eligibility.go:40-62 | the collecting loops yield the app containers, then the native sidecars |
| Eligibility.ResizableInOrder | internal/eligibility/eligibility.go:40-62 | where each app container and each sidecar stands among them, and that there are no others |
| Eligibility.SumRequests | internal/eligibility/eligibility.go:85-91 | the loop sums the requests |
| Eligibility.ReadCurrentLimit | internal/eligibility/eligibility.go:102-114 | the loop yields the sum of the limits, or 0 unless every container that requests CPU has one |
| Split.SortSorts | internal/controller/podinput.go:102-110 | the remainders are permuted into order, largest first, ties in container order |
| Split.LeftoverIsLost | internal/controller/podinput.go:97-101 | the leftover is exactly what flooring dropped, summed |
| Split.LeftoverNeverWraps | internal/controller/podinput.go:111-113 | the leftover is less than the number of containers it is handed to |
| SplitShares.SharesSumToTarget | internal/controller/podinput.go:61-65 | the shares of a target at or above the request sum to it exactly |
| SplitShares.ShareIsProRata | internal/controller/podinput.go:86-113 | each share is its exact pro-rata value rounded down or up, never up from a whole number, never below its own request |
| SplitShares.LargestRemainderFirst | internal/controller/podinput.go:102-113 | of two shares the one rounded up has the larger remainder, or an equal one and comes first |
| SplitShares.SplitOfRequest | internal/controller/podinput.go:72-115 | splitting the request gives each container its own request |
| SplitShares.SplitLimit | internal/controller/podinput.go:72-115 | the map-filling loops and the sort give exactly the containers that request CPU their shares, and name no other |
| LimitRange.ComputeLimitRangeCap | internal/eligibility/eligibility.go:272-315 | the nested loops yield the running minimum of every rule as a cap |
| LimitRange.ComputeContainerRatioCap | internal/eligibility/eligibility.go:322-330 | the loop yields the tightest container's room as a pod total |
| LimitRange.WithinAll | internal/eligibility/eligibility.go:287-310 | being within the running minimum is being allowed by every item, and nothing else |
| LimitRange.CapIsExact | internal/eligibility/eligibility.go:264-315 | where the cap leaves room above the request, a pod total is under it if and only if every item allows that total; with no cap every total in range is allowed |
| Admission.ResizeReadsBack | internal/eligibility/eligibility.go:93-114 | the limits a split writes read back as the target |
| Admission.LimitsAloneMove | internal/controller/podinput.go:67-71 | a split leaves requests and the limits of request-less containers as they were |
| Admission.WrittenLimitsSum | internal/eligibility/eligibility.go:277-306 | after a split the limits of all containers sum to the target and the limits of those that request no CPU |
| Admission.ExactQuotient | internal/eligibility/eligibility.go:340-340 | the comparison without rounding says that a limit is past a ratio exactly when it is, in whole milli-cores |
| Admission.SmallErrorQualifies | internal/eligibility/eligibility.go:333-334 | a comparison whose quotient is at most one part in the target too high is off by less than one milli-core up to that target |
| Admission.ExactPastQualifies | internal/eligibility/eligibility.go:340-340 | the comparison without rounding is off by less than one milli-core, however far |
| Admission.RatioLimitIsSound | internal/eligibility/eligibility.go:332-344 | a limit no higher than the ratio limit meets the ratio exactly, and as a LimitRanger that is off by less than one milli-core reads it |
| Admission.RatioLimitIsExact | internal/eligibility/eligibility.go:332-344 | every limit up to the ratio limit meets the ratio if and only if the product is within int64 or at least a thousand times past it |
| Admission.PastRatioLimit | internal/eligibility/eligibility.go:332-344 | a limit past the ratio limit breaks the ratio or reads as past it |
| Admission.UnderCapIsAdmitted | internal/eligibility/eligibility.go:264-315 | a target under a cap with room, once split, satisfies every container maximum, container ratio, pod maximum and pod ratio the cap was built from |
| Admission.DecidedTargetIsAdmitted | internal/policy/policy.go:151-191 | so does every target the policy decides for a pod with no cap, or a cap above its request, with the user's cap, quantization and the QoS lift included; and the request, which is what it decides under a cap equal to it where no lift is needed |
| Admission.NoRoomMeansRefused | internal/eligibility/eligibility.go:269-271 | where a cap is below the request, whatever rules made it, some rule refuses every target at or above the request, exactly or as read |
| PodResize.PatchIsResize | internal/controller/node_controller.go:385-434 | writing the split and reading the pod's containers back gives each its share |
| PodResize.OthersKeepTheirLimits | internal/controller/node_controller.go:392-409 | an init container that has run keeps its limit |
| Qos.CheckGuaranteedAtRequest | internal/controller/podinput.go:34-59 | the early-return loops decide the per-container condition |
| Qos.SumsMatchContainers | internal/controller/podinput.go:28-33 | with requests at or below limits, equal sums are the same as equality on every container |
| Qos.GuaranteedExactly | internal/controller/podinput.go:28-59 | a resize makes the pod Guaranteed by the per-resource sums if and only if the pod is one the check names and the target is its request |
| Qos.DecidedTargetKeepsClass | internal/policy/policy.go:179-190 | where the policy is given the pod's request and what the check says, no decided target, applied by split, makes the pod Guaranteed |
| PodInputs.GuaranteedSurvivesPatch | internal/controller/podinput.go:28-59 | the check gives the same answer after a patch |
| PodInputs.CapSurvivesResize | internal/eligibility/eligibility.go:272-315 | the cap is the same after a patch |
| PodInputs.TargetReadsBack | internal/controller/podinput.go:15-26 | after a patch the pod reads as before but for its current limit, which reads as the target |
| PodInputs.StatsReadBasis | internal/policy/policy.go:90-111 | the node's aggregates depend on requests, bookings and who shares slack, and on nothing else |
| PodInputs.TargetIgnoresLimit | internal/policy/policy.go:192-196 | a target does not depend on the limit carried, and a pod that carries its target gets no patch |
| PodInputs.WrittenTargetIsLeftAlone | internal/policy/policy.go:192-196 | zero churn: once a decided target is written, recomputing the node with only those limits changed decides the same target and no patch |
| BackoffRuns.JudgeKeepsSound | internal/controller/node_controller.go:291-364 | judging one pod keeps every open window, and opens one only where none was open |
| BackoffRuns.BuildShape | internal/controller/node_controller.go:285-367 | the inputs are the listed pods, once each, and no window holds a managed one |
| BackoffRuns.PassKeepsSound | internal/controller/node_controller.go:181-276 | a pass, whatever it observes and is answered, keeps every open window |
| BackoffRuns.RunKeepsSound | internal/controller/node_controller.go:623-640 | so does every run of passes over any nodes |
| BackoffRuns.NothingInsideAWindow | internal/controller/node_controller.go:341-347 | after a refusal or an infeasible verdict no patch goes to that pod, and no further warning is raised for it, until more than a backoff period later |
| PassReads.StatsReadViews | internal/policy/policy.go:89-111 | slack is the allocatable less all bookings, floored at 0; M and N are the requests and the number of the pods that are enrolled, eligible and not another autoscaler's, whichever windows are open; M times the factor is M and the slack |
| PassReads.NothingStops | internal/controller/node_controller.go:301-341 | building inputs fails exactly where a pod that passes its gates has a namespace that cannot be read, or is to be decided on and has LimitRanges that cannot |
| PassReads.EachIsJudged | internal/controller/node_controller.go:285-367 | whatever its neighbours are, each listed pod is left out, counted, held by its window, given a new window for its infeasible verdict, or decided on with its LimitRange cap |
| PassReads.DecidesExactly | internal/controller/node_controller.go:285-367 | a pass decides on exactly the pods that share the slack, are held by no window and are not infeasible |
| ApplyLoop.LoopReports | internal/controller/node_controller.go:247-276 | the loop stops exactly where the bucket runs dry, fails exactly where a patch it sent failed otherwise than it handles, and comes back soon exactly where one conflicted or the bucket ran dry |
| ApplyLoop.LoopSends | internal/controller/node_controller.go:215-267 | exactly the wanted patches up to there are sent, once each and in order, whatever the earlier ones were answered |
| ApplyLoop.NoOneIsStranded | internal/controller/node_controller.go:259-263 | a decision the bucket leaves room for is sent, and accepted where it is, whatever became of those before it |
| ApplyLoop.LoopAccepts | internal/controller/node_controller.go:254-266 | the pods reported as patched are those whose patch was sent and accepted |
| ApplyLoop.LoopWarns | internal/controller/node_controller.go:440-462 | a warning goes with each patch sent and refused, and no other |
| ApplyLoop.LoopOpens | internal/controller/node_controller.go:636-640 | a refused pod's window ends a period after the answer; the other pods decided on keep theirs |
| Requeue.DelayIsJittered | internal/controller/node_controller.go:705-718 | the enqueue delay is positive and within half the base of the base |
| Requeue.DelayFollowsDraw | internal/controller/node_controller.go:705-718 | the delay is the base and the drawn part of the jitter, to within a nanosecond |
| Requeue.DelayGrows | internal/controller/node_controller.go:705-718 | a larger draw never gives a shorter delay |
| Requeue.DelaysBalance | internal/controller/node_controller.go:711-713 | opposite draws are as far from the base, so the jitter keeps the mean |
| Requeue.HeldBackIsOpen | internal/controller/node_controller.go:319-348 | a pod a pass holds back has a window that was open when the pass began, and is among the pods the requeue looks at |
| Requeue.HeldPodIsRequeued | internal/controller/node_controller.go:269-276 | a pass that holds a pod back fails, comes back in a second, or comes back strictly after the first open window ends |
| Retries.RunWithinPeriod | internal/controller/node_controller.go:636-640 | in the map any run of passes builds up, no window outlasts a backoff period |
| Retries.OtherNodesMeanwhile | internal/controller/node_controller.go:623-640 | passes over other nodes leave a pod's window alone, and open none that ends within a period |
| Retries.VisitOutcome | internal/controller/node_controller.go:285-367 | a visit to a held pod's node retries the pod (decides on it, finds it infeasible again, or finds it no longer shares slack), or fails, or finds its window open and leaves it so |
| Retries.HeldPodIsRetried | internal/controller/node_controller.go:642-662 | by the first visit that begins after the window and does not fail, and by any that asks for no other, the pod has been retried, whatever brings visits on and whatever other pods come and go |
| Retries.RetryComes | internal/controller/node_controller.go:269-276 | a run whose visits go on as the returned schedules ask reaches a visit that begins after the window, by which the pod has been retried unless that one fails and is asked for again |
| Retries.NextVisitIsPrompt | internal/controller/node_controller.go:646-662 | a visit that leaves the pod held is followed within a second, or by its window's end, a debounce and its own length |
| Retries.RetryIsPrompt | internal/controller/node_controller.go:642-662 | where no visit fails, runs longer than some time or waits out more than some debounce, the held pod has been retried by its window's end, that time, and the larger of a second and that debounce |
| Retries.TimerIsOnTime | internal/controller/node_controller.go:646-662 | the delay returned for a held pod waits out the first open window |
| Retries.OnTimeVisitsAreFew | internal/controller/node_controller.go:642-662 | of visits that wait it out, at most as many go by before the retry as there are windows that end before the pod's, and one |
| Requeue.NoWishIsDropped | internal/controller/node_controller.go:247-276 | outside dry run every wanted patch is accepted, its pod is gone or backs off, or the node is looked at again |
| Requeue.DryRunSendsNothing | internal/controller/node_controller.go:238-247 | in dry run no patch is sent and no window opens |
| NodeRun.WindowsLeaveStatsAlone | internal/controller/node_controller.go:279-284 | slack, the distribution basis and its count are the same whichever windows are open |
| NodeRun.DecisionsAreWindowFree | internal/controller/node_controller.go:279-284 | every decision is the one its pod would get with no window open anywhere |
| NodeRun.PatchedPodsWant | internal/controller/node_controller.go:215-267 | only a pod whose window-free decision asks for a patch gets one |
| NodeRun.PassKeepsNode | internal/controller/node_controller.go:215-267 | accepted patches change no pod's basis or target and leave no accepted pod wanting |
| NodeRun.RunKeepsNode | internal/controller/node_controller.go:285-367 | over a run in which only windows move and patches are answered, every pod keeps its basis and target |
| NodeRun.StatsStayPut | internal/controller/node_controller.go:187-187 | every pass of such a run computes the same aggregates |
| NodeRun.TargetsStayPut | internal/policy/policy.go:113-120 | every decision of such a run carries the target of the first pass |
| NodeRun.SettledIsNeverPatched | internal/controller/node_controller.go:219-262 | a settled pod is never patched in such a run, whatever its neighbours go through |
| PassWrites.NeverGuaranteed | internal/controller/podinput.go:24-24 | for any pod as a pass reads it, writing the target decided for it does not make it Guaranteed |
| PassWrites.WrittenIsAdmitted | internal/eligibility/eligibility.go:264-315 | where the pod's LimitRanges leave room, every rule of them admits the pod with that target written |
| PassWrites.WrittenIsCapped | internal/policy/policy.go:151-164 | its target is at its request, or within the node, the multiplier, its user's cap and its LimitRange cap, or lifted by at most a quantum |
| PassWrites.CurrentLimitExactly | internal/eligibility/eligibility.go:93-114 | the limit a pod carries is the sum over the containers that request CPU, or 0 where one of them has none |
| PassWrites.UnboundedIsPatched | internal/eligibility/eligibility.go:93-96 | a pod with such a container is always patched |
| PassWrites.DecisionsAreSafe | internal/controller/node_controller.go:181-267 | every decision of a pass is for a listed pod, keeps its QoS class and its user's cap, and is admitted by its LimitRanges where they leave room |
| PassWrites.DecisionsAreFair | internal/controller/node_controller.go:181-187 | ... and gives the pod its share of the slack read off the listed pods, unless the next limit up is over a cap |
| Convergence.UndisturbedBuild | internal/controller/node_controller.go:285-367 | where nothing disturbs a pass, its inputs are the window-free ones |
| Convergence.QuietPassMakesProgress | internal/controller/node_controller.go:215-267 | a pass with accepted patches and a bucket that admits one leaves strictly fewer pods to patch, unless none is left |
| Convergence.QuietRunConverges | internal/controller/node_controller.go:215-276 | after n such passes at least n fewer pods are left to patch, down to none |
| Convergence.RestIsNotWorthApplying | internal/policy/policy.go:193-209 | a limit not worth a patch is its target or within its deadband |
| Convergence.NodeComesToRest | internal/policy/policy.go:182-211 | after as many passes as pods started out wrong, every managed pod's limit is its target or within its deadband |
| SeriesIndex.StepIsExact | internal/controller/node_controller.go:572-589 | from a right index a step leaves a right one if and only if no pod that leaves the node is held by another |
| SeriesIndex.RunIsExact | internal/controller/node_controller.go:548-589 | over any run the exported series are the union of the nodes' sets after every step if and only if no step deletes another node's pod |
| SeriesIndex.MovedPodLosesItsSeries | internal/controller/node_controller.go:578-581 | a pod that moved to a node that synced first loses its live series when the old node syncs, while the count keeps it |
| SeriesIndex.SyncExportsItsOwn | internal/controller/node_controller.go:204-213 | a node's sync always leaves all of its own pods exported |
| SeriesIndex.GaugeMovesByDifference | internal/controller/node_controller.go:591-599 | a step moves the gauge by what its node gained less what it lost |
| SeriesIndex.GaugeCountsSeries | internal/controller/node_controller.go:601-607 | the gauge equals the number of exported series if and only if no pod is held by two nodes |
| SeriesIndex.EveryEntryHasAPod | internal/controller/node_controller.go:601-619 | over any run, whether or not two nodes hold one pod, no node entry is empty, so the nodes with a pod are the entries |
| SeriesIndex.ExclusiveRunIsRight | internal/controller/node_controller.go:548-619 | over any run where no pod is held by two nodes, exported series are the union, no node entry is empty, and the gauge is their number |
| Reconciler.NodeReconciler.BackoffRequeue | internal/controller/node_controller.go:646-662 | in any order of pods, the delay is until the first open window ends, plus a debounce, or 0 where none is open |
| Reconciler.NodeReconciler.InBackoff | internal/controller/node_controller.go:623-634 | a window holds its pod up to its end and is dropped after it |
| Reconciler.NodeReconciler.BaseEnqueueDelay | internal/controller/node_controller.go:695-703 | the base delay is always positive |
| Reconciler.NodeReconciler.JitteredDelay | internal/controller/node_controller.go:714-718 | the delay is positive and within half the base of the base |
| Reconciler.NodeReconciler.JudgeOne | internal/controller/node_controller.go:291-364 | one pod's turn: its input, or a failed lookup, and what its window becomes |
| Reconciler.NodeReconciler.BuildAll | internal/controller/node_controller.go:285-367 | the loop, with its early return, builds the pass's inputs and leaves the backoff map the pass leaves |
| Reconciler.NodeReconciler.ClassifyResizeError | internal/controller/node_controller.go:440-462 | which outcomes are handled, which come back soon, and that only a 403 opens a window |
| Reconciler.NodeReconciler.ApplyDecisions | internal/controller/node_controller.go:215-267 | the loop, with its early exit on an empty bucket, sends and answers patches as the pass does |
| Reconciler.NodeReconciler.RefreshPodsManaged | internal/controller/node_controller.go:593-599 | the gauge is the number of (node, pod) pairs |
| Reconciler.NodeReconciler.SyncPodMetrics | internal/controller/node_controller.go:572-589 | series of pods that left are deleted, an empty node has no entry, and the gauge is refreshed |
| Reconciler.NodeReconciler.ExportDecisions | internal/controller/node_controller.go:199-213 | setting the series and syncing is the index's sync step |
| Reconciler.DecidedKeysExactly | internal/controller/node_controller.go:199-213 | the series a pass exports for its node are those of the pods it decides on, patched or not |
| Reconciler.NodeReconciler.ForgetNode | internal/controller/node_controller.go:548-565 | forgetting a node is the index's forget step |
| Reconciler.NodeReconciler.ManagedCounts | internal/controller/node_controller.go:608-619 | pods are (node, pod) pairs, nodes those with a pod, which are all the entries where none is empty |
| Reconciler.NodeReconciler.RunOn | internal/controller/node_controller.go:181-276 | from judging the pods to the requeue, state and schedule are the pass's |
| Reconciler.NodeReconciler.Reconcile | internal/controller/node_controller.go:137-277 | every branch's schedule and state; backoff windows stay honoured; a held pod is never left without a requeue |
| QueueIds.EverySessionCounts | scripts/alloc-queue-id.sh:144-158 | in every interleaving a session's IDs strictly increase above its floor, and it gives up exactly after 25 refusals in a row |
| QueueIds.GivesUpOnlyToOthers | scripts/alloc-queue-id.sh:147-156 | over a reliable network a title is given up only where 25 IDs in a row belong to others |
| QueueIds.ExclusiveExactly | scripts/alloc-queue-id.sh:8-24 | IDs are handed out once if and only if no push was told of success by a ref that belonged to someone and held the blob pushed |
| QueueIds.UniqueBlobsAreExclusive | scripts/alloc-queue-id.sh:11-16 | with a blob per claim, over every interleaving no ID is handed out twice, nor one claimed before |
| QueueIds.SharedBlobIsHandedOutTwice | scripts/alloc-queue-id.sh:11-16 | with a shared blob two sessions at one floor are both handed the next free ID |
| QueueIds.TryIsClaim | scripts/alloc-queue-id.sh:147-153 | a claim among other sessions is the script's own step on the refs and on its session, and touches no other session |
| QueueIds.Remote.Push | scripts/alloc-queue-id.sh:121-135 | a push creates an absent ref, succeeds unchanged where the ref holds its blob, and is refused otherwise |
| QueueIds.Remote.HighestClaimed | scripts/alloc-queue-id.sh:91-94 | the largest ID claimed, or 0 where none can be listed |
| QueueIds.OpeningFloor | scripts/alloc-queue-id.sh:137-142 | no less than either source, and one of them |
| QueueIds.AloneGetsTheNextIds | scripts/alloc-queue-id.sh:137-158 | left alone, a session is handed the next free IDs after the top of what it knows and what is claimed, one for each title |
| QueueIds.ServeTitle | scripts/alloc-queue-id.sh:147-153 | one title takes claims of successive IDs until one wins or 25 have been refused |
| QueueIds.Allocate | scripts/alloc-queue-id.sh:137-158 | every title served or the one at hand given up, IDs increasing and above every local ID and every listed claim, whatever others push between claims |
| VpaPoller.CollectAdds | internal/vpa/poller.go:202-233 | a page extends each namespace's list in order, or is refused where an object does not decode |
| VpaPoller.ListedIsWhole | internal/vpa/poller.go:179-200 | a list counts if and only if every page of it was served and decoded, and then is exactly what the pages held |
| VpaPoller.ErroredExactly | internal/vpa/poller.go:181-200 | a list ends as absent or as forbidden exactly where the API answers so before the whole list is served |
| VpaPoller.ConclusionExactly | internal/vpa/poller.go:117-143 | a round changes the view exactly where the whole list was served, to all of it, or the API was absent or forbidden, to none; a failure or a shutdown keeps it |
| VpaPoller.StateExactly | internal/vpa/poller.go:126-136 | the state is served, absent or forbidden by the same |
| VpaPoller.ViewIsLastConclusion | internal/vpa/poller.go:117-143 | after any run of refreshes the view is the last conclusive list, empty where the API was absent or forbidden |
| VpaPoller.ChangedIsWhatReadsDiffer | internal/vpa/poller.go:167-176 | the namespaces notified are exactly those that would be read differently |
| VpaPoller.NoticeIsComplete | internal/vpa/poller.go:160-177 | events name every changed namespace if and only if the buffer has room for them |
| VpaPoller.RefreshAgrees | internal/vpa/poller.go:160-177 | a refresh keeps a re-reading consumer in agreement, in whatever order namespaces are yielded, if and only if beforehand the buffer has room for all that differ or none of those needs an event, and the same for those that are gone as well |
| VpaPoller.AgreementIsKeepingPace | internal/vpa/poller.go:120-177 | fed the same answers and reads, every run keeps the consumer in agreement at every step if and only if that holds before every refresh of every run |
| VpaPoller.FullBufferLoses | internal/vpa/poller.go:161-166 | with a full buffer a change is lost, and reading every queued event does not bring it back |
| VpaPoller.RunAgrees | internal/vpa/poller.go:120-177 | however refreshes and reads interleave, the view is the last conclusive list, and while the buffer keeps up a consumer that has read every event knows every namespace as the view has it |
| VpaPoller.Poller.List | internal/vpa/poller.go:181-200 | the page loop yields the whole list, or the first error |
| VpaPoller.Poller.Parse | internal/vpa/poller.go:202-233 | the item loop extends the map, or fails on the first object that does not decode |
| VpaPoller.Poller.Notify | internal/vpa/poller.go:160-177 | changed namespaces are queued once each, as many as there is room for, all that differ before any that is gone |
| VpaPoller.Poller.Refresh | internal/vpa/poller.go:120-158 | what a refresh does to the view, the synced flag, the state and the event buffer, by what the list concluded |

## Left out

- Kubernetes clients, server-side apply bodies, events, logging, Prometheus registration, the status annotation and the gauges for factor, slack and deferred resizes: plumbing without a rule of its own.
- The scheduler's booking of a pod and the request LimitRanges are checked against: they come from a Kubernetes library, and are given numbers here.
- Eligibility gates by label, owner, namespace, node and resize policy, and the matching of VPAs to pods: one-branch predicates, given as booleans.
- `golang.org/x/time/rate` and the per-node limiter map: whether the bucket admits a patch is an input of every attempt.
- IEEE rounding, int64 overflow and Quantity parsing: arithmetic is exact and unbounded, apart from the LimitRanger comparison described above.
- Two nodes' reconciles inside one another: a pass is atomic. Passes share the backoff map, and theorems about runs cover passes over different nodes in any order.
- A reconcile's caches of namespaces and LimitRanges: each pod carries the answer its lookup got.
- The chain of "more pages" that never ends: a list's replies are a finite sequence, and past its end the API counts as down.
- Admission.DecidedTargetIsAdmitted: asks that no ratio rule's product is past int64 and yet within a thousandfold of the target, because of the branch `Admission.RatioLimitIsExact` describes. It leaves out a pod whose cap is its request and that needs the QoS lift, since the policy lifts it over that cap.
- Admission.UnderCapIsAdmitted: asks the same of its target.
- PassWrites.WrittenIsAdmitted: asks the same two things of the pod it writes to, and `PassWrites.DecisionsAreSafe` with it.
- LimitRange container rules on containers that request no CPU: a resize does not move their limits, and the cap does not read them.
- Convergence.NodeComesToRest: asks for passes without open windows, refusals, failed lookups or dry run, which is when the design promises convergence.
- QueueIds.Allocate: option parsing, near-duplicate warnings and the reading of local history by pattern are not modelled, nor the octal reading of an ID written with a leading zero.
- The rest of `scripts/queue.py` (parsing, lint, claims, metrics, rendering), the birth-limit webhook, the HeadroomConfig status reconciler and the watch setup: members without hard properties.
