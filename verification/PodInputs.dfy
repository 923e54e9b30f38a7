/** What a reconcile reads of a pod, what the policy is given, and how a written target reads back
    (`internal/controller/podinput.go`, `internal/controller/node_controller.go`). */
module PodInputs {
  import opened Eligibility
  import opened LimitRange
  import opened Options
  import opened Policy
  import opened PolicyBounds
  import opened SplitShares
  import opened Admission
  import opened PodResize
  import opened Qos

  datatype Lookup = LookupFailed | NotEnrolled | Enrolled

  /** A pod bound to the node as a pass reads it. What other packages and the API server decide is
      given: the gates, the scheduler's booking, the request LimitRanges are checked against. */
  datatype PodView = PodView(
    key: PodKey,
    pod: Pod,
    terminal: bool,
    gatesPass: bool,          // node manageable, owner not excluded, pod-local gates but the request
    namespaceLookup: Lookup,
    vpaManaged: bool,         // a VerticalPodAutoscaler can write the limit
    userCap: int,
    booked: int,
    podRequest: int,
    limitRanges: Option<seq<seq<LimitItem>>>) // None where listing them fails

  function Containers(v: PodView): seq<Resizable> {
    ResizableContainers(v.pod)
  }

  function Request(v: PodView): int {
    PodRequest(Containers(v))
  }

  /** `buildPodInput`. */
  function BuildPodInput(v: PodView, managed: bool): PodInput {
    PodInput(v.key, Request(v), v.booked - Request(v), PodCurrentLimit(Containers(v)), managed, false, v.userCap, 0,
             GuaranteedAtRequest(v.pod))
  }

  function CapOf(v: PodView, past: Past): int {
    if v.limitRanges.Some? then LimitRangeCap(Containers(v), v.podRequest, v.limitRanges.value, past) else 0
  }

  predicate PassesGates(v: PodView) {
    v.gatesPass && Request(v) > 0
  }

  /** Whether the pod shares the node's slack, backed off or not. */
  predicate SharesSlack(v: PodView) {
    !v.terminal && PassesGates(v) && v.namespaceLookup == Enrolled && !v.vpaManaged
  }

  /** The input of a pod that no backoff window holds. */
  function InputOf(v: PodView, past: Past): PodInput {
    if SharesSlack(v) then BuildPodInput(v, true).(limitRangeCap := CapOf(v, past)) else BuildPodInput(v, false)
  }

  // ---- Writing a target and reading it back ----

  ghost predicate ViewValid(v: PodView) {
    PodValid(v.pod) && !v.pod.podLevelResources
  }

  /** The view once a target has been written: only container CPU limits change. */
  ghost predicate IsResized(v: PodView, target: nat, after: PodView)
    requires ViewValid(v)
  {
    exists out: map<string, int> :: IsSplit(out, target, Containers(v)) && after == v.(pod := PatchPod(v.pod, out))
  }

  lemma {:induction false} GuaranteedSurvivesPatch(pod: Pod, out: map<string, int>, target: nat)
    requires PodValid(pod) && !pod.podLevelResources && IsSplit(out, target, ResizableContainers(pod))
    ensures GuaranteedAtRequest(PatchPod(pod, out)) == GuaranteedAtRequest(pod)
  {
    var after := PatchPod(pod, out);
    InitsSurvive(pod, out, target);
    PinsSurvive(pod.containers, out);
    EachPinned(pod.containers, after.containers);
    GuaranteedIsPinned(pod);
    GuaranteedIsPinned(after);
  }

  predicate EachIsPinned(cs: seq<Container>) {
    forall c :: c in cs ==> Pinned(c)
  }

  predicate EachInitIsPinned(cs: seq<Container>) {
    forall c :: c in cs ==> PinnedInit(c)
  }

  lemma {:induction false} GuaranteedIsPinned(pod: Pod)
    requires !pod.podLevelResources
    ensures GuaranteedAtRequest(pod) <==> EachIsPinned(pod.containers) && EachInitIsPinned(pod.inits)
  {
  }

  lemma {:induction false} InitsSurvive(pod: Pod, out: map<string, int>, target: nat)
    requires PodValid(pod) && !pod.podLevelResources && IsSplit(out, target, ResizableContainers(pod))
    ensures EachInitIsPinned(PatchPod(pod, out).inits) == EachInitIsPinned(pod.inits)
  {
    var inits := PatchPod(pod, out).inits;
    PinsSurvive(pod.inits, out);
    if PodRequest(ResizableContainers(pod)) > 0 {
      forall k | 0 <= k < |pod.inits| && !pod.inits[k].restartable ensures inits[k] == pod.inits[k] {
        OthersKeepTheirLimits(pod, out, target, k);
      }
    }
    EachPinnedInit(pod.inits, inits);
  }

  lemma {:induction false} PinsSurvive(cs: seq<Container>, out: map<string, int>)
    ensures var after := PatchContainers(cs, out);
      |after| == |cs| && forall k :: 0 <= k < |cs| ==>
        Pinned(after[k]) == Pinned(cs[k]) && after[k].restartable == cs[k].restartable
  {
    forall k | 0 <= k < |cs|
      ensures var c := PatchContainers(cs, out)[k]; Pinned(c) == Pinned(cs[k]) && c.restartable == cs[k].restartable
    {
      PinSurvives(cs[k], out);
    }
  }

  lemma PinSurvives(c: Container, out: map<string, int>)
    ensures Pinned(PatchContainer(c, out)) == Pinned(c) && PatchContainer(c, out).restartable == c.restartable
  {
  }

  lemma EachPinned(cs: seq<Container>, after: seq<Container>)
    requires |cs| == |after| && forall k :: 0 <= k < |cs| ==> Pinned(after[k]) == Pinned(cs[k])
    ensures (forall c :: c in after ==> Pinned(c)) <==> (forall c :: c in cs ==> Pinned(c))
  {
    if forall c :: c in after ==> Pinned(c) {
      forall k | 0 <= k < |cs| ensures Pinned(cs[k]) {
        assert after[k] in after;
      }
    }
    if forall c :: c in cs ==> Pinned(c) {
      forall k | 0 <= k < |cs| ensures Pinned(after[k]) {
        assert cs[k] in cs;
      }
    }
  }

  predicate PinnedInit(c: Container) {
    Pinned(c) && (!c.restartable ==> c.cpuRequest == c.cpuLimit)
  }

  lemma EachPinnedInit(cs: seq<Container>, after: seq<Container>)
    requires |cs| == |after|
    requires forall k :: 0 <= k < |cs| ==>
      Pinned(after[k]) == Pinned(cs[k]) && after[k].restartable == cs[k].restartable
    requires forall k :: 0 <= k < |cs| && !cs[k].restartable ==> after[k] == cs[k]
    ensures (forall c :: c in after ==> PinnedInit(c)) <==> (forall c :: c in cs ==> PinnedInit(c))
  {
    forall k | 0 <= k < |cs| ensures PinnedInit(after[k]) == PinnedInit(cs[k]) {
    }
    if forall c :: c in after ==> PinnedInit(c) {
      forall k | 0 <= k < |cs| ensures PinnedInit(cs[k]) {
        assert after[k] in after;
      }
    }
    if forall c :: c in cs ==> PinnedInit(c) {
      forall k | 0 <= k < |cs| ensures PinnedInit(after[k]) {
        assert cs[k] in cs;
      }
    }
  }

  lemma CapSurvivesResize(v: PodView, after: seq<Resizable>, past: Past)
    requires SameButLimits(Containers(v), after) && v.limitRanges.Some?
    ensures LimitRangeCap(after, v.podRequest, v.limitRanges.value, past) == CapOf(v, past)
  {
    var rcs := Containers(v);
    LimitsAloneMove(rcs, after);
    if PodRequest(rcs) > 0 && v.limitRanges.value != [] && LargestRequest(rcs) > 0 {
      TightenSurvives(Items(v.limitRanges.value), rcs, after, v.podRequest, past);
    }
  }

  lemma {:induction false} RatioCapSurvives(rcs: seq<Resizable>, after: seq<Resizable>, ratio: int, total: int,
                                            past: Past)
    requires SameButLimits(rcs, after)
    ensures ContainerRatioCap(after, ratio, total, past) == ContainerRatioCap(rcs, ratio, total, past)
  {
    if rcs != [] {
      RatioCapSurvives(rcs[..|rcs| - 1], after[..|after| - 1], ratio, total, past);
    }
  }

  lemma {:induction false} TightenSurvives(items: seq<LimitItem>, rcs: seq<Resizable>, after: seq<Resizable>,
                                           podRequest: int, past: Past)
    requires SameButLimits(rcs, after) && LargestRequest(rcs) > 0
    ensures LargestRequest(after) == LargestRequest(rcs)
    ensures TightenAll(items, after, podRequest, past) == TightenAll(items, rcs, podRequest, past)
  {
    LimitsAloneMove(rcs, after);
    if items != [] {
      TightenSurvives(items[..|items| - 1], rcs, after, podRequest, past);
      var item := items[|items| - 1];
      if item.ratio.Some? {
        RatioCapSurvives(rcs, after, item.ratio.value, PodRequest(rcs), past);
      }
    }
  }

  lemma ContainersReadBack(v: PodView, target: nat, out: map<string, int>)
    requires ViewValid(v) && Request(v) <= target && IsSplit(out, target, Containers(v))
    ensures var after := ResizableContainers(PatchPod(v.pod, out));
      && SameButLimits(Containers(v), after) && PodRequest(after) == Request(v) && PodCurrentLimit(after) == target
  {
    CpuValid(v.pod);
    ResizableRequestsValid(v.pod);
    PatchIsResize(v.pod, out, target);
    ResizeReadsBack(target, Containers(v));
    LimitsAloneMove(Containers(v), Resized(target, Containers(v)));
  }

  lemma InputReadsBack(v: PodView, target: nat, out: map<string, int>, managed: bool)
    requires ViewValid(v) && Request(v) <= target && IsSplit(out, target, Containers(v))
    ensures BuildPodInput(v.(pod := PatchPod(v.pod, out)), managed) ==
      BuildPodInput(v, managed).(currentLimit := target)
  {
    ContainersReadBack(v, target, out);
    GuaranteedSurvivesPatch(v.pod, out, target);
  }

  lemma CapReadsBack(v: PodView, target: nat, out: map<string, int>, past: Past)
    requires ViewValid(v) && Request(v) <= target && IsSplit(out, target, Containers(v))
    ensures CapOf(v.(pod := PatchPod(v.pod, out)), past) == CapOf(v, past)
  {
    ContainersReadBack(v, target, out);
    if v.limitRanges.Some? {
      CapSurvivesResize(v, ResizableContainers(PatchPod(v.pod, out)), past);
    }
  }

  lemma SharesReadBack(v: PodView, target: nat, out: map<string, int>)
    requires ViewValid(v) && Request(v) <= target && IsSplit(out, target, Containers(v))
    ensures SharesSlack(v.(pod := PatchPod(v.pod, out))) == SharesSlack(v)
  {
    ContainersReadBack(v, target, out);
  }

  /** After a target has been written, the pod reads exactly as before but for its current limit,
      which reads as the target, request-less containers and all. */
  lemma TargetReadsBack(v: PodView, target: nat, after: PodView, past: Past)
    requires ViewValid(v) && Request(v) <= target && IsResized(v, target, after)
    ensures forall managed :: BuildPodInput(after, managed) == BuildPodInput(v, managed).(currentLimit := target)
    ensures InputOf(after, past) == InputOf(v, past).(currentLimit := target)
    ensures SharesSlack(after) == SharesSlack(v)
  {
    var out: map<string, int> :| IsSplit(out, target, Containers(v)) && after == v.(pod := PatchPod(v.pod, out));
    InputReadsBack(v, target, out, true);
    InputReadsBack(v, target, out, false);
    CapReadsBack(v, target, out, past);
    SharesReadBack(v, target, out);
  }

  /** A written target stays valid, so the next pass can read it. */
  lemma ResizedIsValid(v: PodView, target: nat, after: PodView)
    requires ViewValid(v) && Request(v) <= target && IsResized(v, target, after)
    ensures ViewValid(after)
  {
    var out: map<string, int> :| IsSplit(out, target, Containers(v)) && after == v.(pod := PatchPod(v.pod, out));
    NamesSurvive(v.pod, out);
    PatchStaysValid(v.pod, out, target);
    ContainersReadBack(v, target, out);
  }

  // ---- Targets do not chase limits ----

  /** A pod's target does not depend on the limit it carries, and a pod that carries its target is
      left alone. */
  lemma TargetIgnoresLimit(p: PodInput, limit: int, s: NodeStats, cfg: Config)
    requires s.managedRequests > 0 ==> s.managedPods > 0
    ensures Decide(p.(currentLimit := limit), s, cfg).target == Decide(p, s, cfg).target
    ensures !Decide(p.(currentLimit := Decide(p, s, cfg).target), s, cfg).apply
  {
  }

  ghost predicate SameBasis(p: PodInput, q: PodInput) {
    p.request == q.request && p.bookedDelta == q.bookedDelta && InBasis(p) == InBasis(q)
  }

  ghost predicate SameBases(pods: seq<PodInput>, others: seq<PodInput>) {
    |pods| == |others| && forall i :: 0 <= i < |pods| ==> SameBasis(pods[i], others[i])
  }

  lemma SameBasesSnoc(pods: seq<PodInput>, others: seq<PodInput>, p: PodInput, q: PodInput)
    requires SameBases(pods, others) && SameBasis(p, q)
    ensures SameBases(pods + [p], others + [q])
  {
  }

  /** The node's aggregates read requests, bookings and who shares slack, and nothing else. */
  lemma {:induction false} StatsReadBasis(allocatable: int, pods: seq<PodInput>, others: seq<PodInput>)
    requires SameBases(pods, others)
    ensures Stats(allocatable, pods) == Stats(allocatable, others)
  {
    if pods != [] {
      StatsReadBasis(allocatable, pods[..|pods| - 1], others[..|pods| - 1]);
    }
  }

  lemma RequestIsValid(v: PodView)
    requires ViewValid(v)
    ensures Request(v) >= 0
  {
    CpuValid(v.pod);
    ResizableRequestsValid(v.pod);
    PodRequestSigns(Containers(v));
  }

  /** Zero churn: once a decided target is written, recomputing the node with only that pod's limits
      changed decides the same target and no patch. */
  lemma {:induction false} WrittenTargetIsLeftAlone(allocatable: int, pods: seq<PodInput>, i: nat, v: PodView,
                                                    after: PodView, cfg: Config, past: Past)
    requires i < |pods| && pods[i] == InputOf(v, past) && ViewValid(v)
    requires var target := Decide(pods[i], Stats(allocatable, pods), cfg).target;
             target >= 0 ==> IsResized(v, target, after)
    ensures var again := pods[i := InputOf(after, past)];
      && Stats(allocatable, again) == Stats(allocatable, pods)
      && Decide(again[i], Stats(allocatable, again), cfg).target ==
          Decide(pods[i], Stats(allocatable, pods), cfg).target
      && !Decide(again[i], Stats(allocatable, again), cfg).apply
  {
    var s := Stats(allocatable, pods);
    var target := Decide(pods[i], s, cfg).target;
    RequestIsValid(v);
    TargetBounds(pods[i], s, cfg);
    TargetReadsBack(v, target, after, past);
    StatsReadBasis(allocatable, pods, pods[i := InputOf(after, past)]);
    TargetIgnoresLimit(pods[i], target, s, cfg);
  }
}
