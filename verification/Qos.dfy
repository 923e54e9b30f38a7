/** Resizing never turns a Burstable pod Guaranteed, which the API server would refuse
    (`internal/controller/podinput.go`, `guaranteedAtRequest`). */
module Qos {
  import opened Eligibility
  import opened SplitShares
  import opened Admission
  import opened PodResize
  import opened Policy
  import opened PolicyBounds
  import opened Sums

  // ---- Quality of service as Kubernetes computes it ----

  function CpuRequests(cs: seq<Container>): (s: seq<int>)
    ensures |s| == |cs| && forall i :: 0 <= i < |cs| ==> s[i] == cs[i].cpuRequest
  { seq(|cs|, i requires 0 <= i < |cs| => cs[i].cpuRequest) }

  function CpuLimits(cs: seq<Container>): (s: seq<int>)
    ensures |s| == |cs| && forall i :: 0 <= i < |cs| ==> s[i] == cs[i].cpuLimit
  { seq(|cs|, i requires 0 <= i < |cs| => cs[i].cpuLimit) }

  function MemRequests(cs: seq<Container>): (s: seq<int>)
    ensures |s| == |cs| && forall i :: 0 <= i < |cs| ==> s[i] == cs[i].memRequest
  { seq(|cs|, i requires 0 <= i < |cs| => cs[i].memRequest) }

  function MemLimits(cs: seq<Container>): (s: seq<int>)
    ensures |s| == |cs| && forall i :: 0 <= i < |cs| ==> s[i] == cs[i].memLimit
  { seq(|cs|, i requires 0 <= i < |cs| => cs[i].memLimit) }

  /** Guaranteed: every container, init containers included, has CPU and memory limits, and per
      resource the requests sum to the limits. */
  ghost predicate Guaranteed(pod: Pod) {
    var cs := AllContainers(pod);
    && (forall c :: c in cs ==> c.cpuLimit > 0 && c.memLimit > 0)
    && Sum(CpuRequests(cs)) == Sum(CpuLimits(cs))
    && Sum(MemRequests(cs)) == Sum(MemLimits(cs))
  }

  /** Requests are non-negative and never exceed a limit that is set. */
  ghost predicate ResourcesValid(cs: seq<Container>) {
    forall c :: c in cs ==>
      && 0 <= c.cpuRequest && 0 <= c.memRequest && 0 <= c.cpuLimit && 0 <= c.memLimit
      && (c.cpuLimit == 0 || c.cpuRequest <= c.cpuLimit)
      && (c.memLimit == 0 || c.memRequest <= c.memLimit)
  }

  /** With requests at or below limits, equal sums are the same as equality on every container. */
  lemma SumsMatchContainers(pod: Pod)
    requires ResourcesValid(AllContainers(pod))
    ensures Guaranteed(pod) <==> forall c :: c in AllContainers(pod) ==>
      c.cpuLimit > 0 && c.memLimit > 0 && c.cpuRequest == c.cpuLimit && c.memRequest == c.memLimit
  {
    var cs := AllContainers(pod);
    if forall c :: c in cs ==> c.cpuLimit > 0 && c.memLimit > 0 {
      forall i | 0 <= i < |cs|
        ensures CpuRequests(cs)[i] <= CpuLimits(cs)[i] && MemRequests(cs)[i] <= MemLimits(cs)[i]
      {
        assert cs[i] in cs;
      }
      SumsMatch(CpuRequests(cs), CpuLimits(cs));
      SumsMatch(MemRequests(cs), MemLimits(cs));
      forall c | c in cs && Guaranteed(pod) ensures c.cpuRequest == c.cpuLimit && c.memRequest == c.memLimit {
        var i :| 0 <= i < |cs| && cs[i] == c;
        assert CpuRequests(cs)[i] == CpuLimits(cs)[i] && MemRequests(cs)[i] == MemLimits(cs)[i];
      }
    }
  }

  // ---- guaranteedAtRequest ----

  predicate Pinned(c: Container) {
    c.cpuRequest > 0 && c.memRequest > 0 && c.memRequest == c.memLimit
  }

  /** Whether a limit equal to the request on every resizable container makes the pod Guaranteed. */
  predicate GuaranteedAtRequest(pod: Pod) {
    && !pod.podLevelResources
    && (forall c :: c in pod.containers ==> Pinned(c))
    && (forall c :: c in pod.inits ==> Pinned(c) && (!c.restartable ==> c.cpuRequest == c.cpuLimit))
  }

  method CheckGuaranteedAtRequest(pod: Pod) returns (b: bool)
    ensures b == GuaranteedAtRequest(pod)
  {
    if pod.podLevelResources {
      return false;
    }
    for i := 0 to |pod.containers|
      invariant forall j :: 0 <= j < i ==> Pinned(pod.containers[j])
    {
      if !Pinned(pod.containers[i]) {
        return false;
      }
    }
    for i := 0 to |pod.inits|
      invariant forall j :: 0 <= j < i ==>
        Pinned(pod.inits[j]) && (!pod.inits[j].restartable ==> pod.inits[j].cpuRequest == pod.inits[j].cpuLimit)
    {
      var c := pod.inits[i];
      if !Pinned(c) {
        return false;
      }
      if !c.restartable && c.cpuRequest != c.cpuLimit {
        return false;
      }
    }
    return true;
  }

  // ---- The class after a resize ----

  ghost predicate PodValid(pod: Pod) {
    && NamesDistinct(AllContainers(pod))
    && ResourcesValid(AllContainers(pod))
    && PodRequest(ResizableContainers(pod)) > 0
  }

  /** A container as the patch leaves it. */
  lemma PatchedContainer(pod: Pod, out: map<string, int>, target: nat, k: nat)
    requires PodValid(pod) && PodRequest(ResizableContainers(pod)) <= target
    requires IsSplit(out, target, ResizableContainers(pod)) && k < |AllContainers(pod)|
    ensures var c, after := AllContainers(pod)[k], PatchContainer(AllContainers(pod)[k], out);
      && after == c.(cpuLimit := after.cpuLimit)
      && (c.cpuRequest == 0 ==> after == c)
      && (after.cpuLimit == 0 || c.cpuRequest <= after.cpuLimit) && after.cpuLimit >= 0
      && (k >= |pod.containers| && !c.restartable ==> after == c)
  {
    var c := AllContainers(pod)[k];
    assert c in AllContainers(pod);
    if k >= |pod.containers| && !c.restartable {
      assert c == pod.inits[k - |pod.containers|];
      OthersKeepTheirLimits(pod, out, target, k - |pod.containers|);
    } else {
      CpuValid(pod);
      ResizableRequestsValid(pod);
      var i := ResizableIndex(pod, k);
      PatchedShare(pod, out, target, k, i);
      SharesOfNothing(target, ResizableContainers(pod));
    }
  }

  lemma CpuValid(pod: Pod)
    requires ResourcesValid(AllContainers(pod))
    ensures CpuRequestsValid(AllContainers(pod))
  {
  }

  lemma PatchStaysValid(pod: Pod, out: map<string, int>, target: nat)
    requires PodValid(pod) && PodRequest(ResizableContainers(pod)) <= target
    requires IsSplit(out, target, ResizableContainers(pod))
    ensures ResourcesValid(AllContainers(PatchPod(pod, out)))
  {
    var all, after := AllContainers(pod), AllContainers(PatchPod(pod, out));
    forall c | c in after
      ensures 0 <= c.cpuRequest && 0 <= c.memRequest && 0 <= c.cpuLimit && 0 <= c.memLimit
      ensures (c.cpuLimit == 0 || c.cpuRequest <= c.cpuLimit) && (c.memLimit == 0 || c.memRequest <= c.memLimit)
    {
      var k :| 0 <= k < |after| && after[k] == c;
      assert all[k] in all;
      PatchedAt(pod, out, k);
      PatchedContainer(pod, out, target, k);
    }
  }

  /** A resize makes the pod Guaranteed exactly when the pod is one `guaranteedAtRequest` names and
      the target is its request. */
  lemma GuaranteedExactly(pod: Pod, out: map<string, int>, target: nat)
    requires PodValid(pod) && !pod.podLevelResources && PodRequest(ResizableContainers(pod)) <= target
    requires IsSplit(out, target, ResizableContainers(pod))
    ensures Guaranteed(PatchPod(pod, out)) <==>
      GuaranteedAtRequest(pod) && target == PodRequest(ResizableContainers(pod))
  {
    PatchStaysValid(pod, out, target);
    SumsMatchContainers(PatchPod(pod, out));
    if Guaranteed(PatchPod(pod, out)) {
      GuaranteedMeansPinned(pod, out, target);
    }
    if GuaranteedAtRequest(pod) && target == PodRequest(ResizableContainers(pod)) {
      PinnedMeansGuaranteed(pod, out);
    }
  }

  ghost predicate LimitsEqualRequests(pod: Pod) {
    forall c :: c in AllContainers(pod) ==>
      c.cpuLimit > 0 && c.memLimit > 0 && c.cpuRequest == c.cpuLimit && c.memRequest == c.memLimit
  }

  lemma GuaranteedMeansPinned(pod: Pod, out: map<string, int>, target: nat)
    requires PodValid(pod) && !pod.podLevelResources && PodRequest(ResizableContainers(pod)) <= target
    requires IsSplit(out, target, ResizableContainers(pod))
    requires LimitsEqualRequests(PatchPod(pod, out))
    ensures GuaranteedAtRequest(pod) && target == PodRequest(ResizableContainers(pod))
  {
    GuaranteedApps(pod, out, target);
    GuaranteedInits(pod, out, target);
    GuaranteedMeansRequest(pod, out, target);
  }

  lemma GuaranteedApps(pod: Pod, out: map<string, int>, target: nat)
    requires PodValid(pod) && PodRequest(ResizableContainers(pod)) <= target
    requires IsSplit(out, target, ResizableContainers(pod)) && LimitsEqualRequests(PatchPod(pod, out))
    ensures forall c :: c in pod.containers ==> Pinned(c)
  {
    forall k | 0 <= k < |pod.containers| ensures Pinned(pod.containers[k]) {
      GuaranteedContainer(pod, out, target, k);
    }
  }

  lemma GuaranteedInits(pod: Pod, out: map<string, int>, target: nat)
    requires PodValid(pod) && PodRequest(ResizableContainers(pod)) <= target
    requires IsSplit(out, target, ResizableContainers(pod)) && LimitsEqualRequests(PatchPod(pod, out))
    ensures forall c :: c in pod.inits ==> Pinned(c) && (!c.restartable ==> c.cpuRequest == c.cpuLimit)
  {
    forall k | 0 <= k < |pod.inits|
      ensures Pinned(pod.inits[k]) && (!pod.inits[k].restartable ==> pod.inits[k].cpuRequest == pod.inits[k].cpuLimit)
    {
      GuaranteedInit(pod, out, target, k);
    }
  }

  lemma GuaranteedInit(pod: Pod, out: map<string, int>, target: nat, k: nat)
    requires PodValid(pod) && PodRequest(ResizableContainers(pod)) <= target
    requires IsSplit(out, target, ResizableContainers(pod)) && LimitsEqualRequests(PatchPod(pod, out))
    requires k < |pod.inits|
    ensures var c := pod.inits[k]; Pinned(c) && (!c.restartable ==> c.cpuRequest == c.cpuLimit)
  {
    var i := |pod.containers| + k;
    assert AllContainers(pod)[i] == pod.inits[k];
    GuaranteedContainer(pod, out, target, i);
  }

  lemma GuaranteedContainer(pod: Pod, out: map<string, int>, target: nat, k: nat)
    requires PodValid(pod) && PodRequest(ResizableContainers(pod)) <= target
    requires IsSplit(out, target, ResizableContainers(pod))
    requires LimitsEqualRequests(PatchPod(pod, out)) && k < |AllContainers(pod)|
    ensures var c := AllContainers(pod)[k];
      Pinned(c) && (k >= |pod.containers| && !c.restartable ==> c.cpuRequest == c.cpuLimit)
  {
    var after := AllContainers(PatchPod(pod, out));
    assert after[k] in after;
    PatchedAt(pod, out, k);
    PatchedContainer(pod, out, target, k);
  }

  /** Where every limit equals its request, so do their totals. */
  lemma GuaranteedMeansRequest(pod: Pod, out: map<string, int>, target: nat)
    requires PodValid(pod) && PodRequest(ResizableContainers(pod)) <= target
    requires IsSplit(out, target, ResizableContainers(pod))
    requires LimitsEqualRequests(PatchPod(pod, out))
    ensures target == PodRequest(ResizableContainers(pod))
  {
    var rcs, patched := ResizableContainers(pod), PatchPod(pod, out);
    var resized := ResizableContainers(patched);
    CpuValid(pod);
    ResizableRequestsValid(pod);
    PatchIsResize(pod, out, target);
    ResizeReadsBack(target, rcs);
    LimitsAloneMove(rcs, resized);
    NamesSurvive(pod, out);
    ResizableLimitsEqual(patched);
    LimitsAreRequests(resized);
  }

  lemma ResizableLimitsEqual(pod: Pod)
    requires NamesDistinct(AllContainers(pod)) && LimitsEqualRequests(pod)
    ensures forall i :: 0 <= i < |ResizableContainers(pod)| ==>
      ResizableContainers(pod)[i].request == ResizableContainers(pod)[i].limit > 0
  {
    var rcs := ResizableContainers(pod);
    ResizableShape(pod);
    assert forall c :: c in pod.containers || c in pod.inits ==> c in AllContainers(pod);
    forall i | 0 <= i < |rcs| ensures rcs[i].request == rcs[i].limit > 0 {
      assert rcs[i] in rcs;
    }
  }

  /** The patched pod, whose names are those of the pod. */
  lemma NamesSurvive(pod: Pod, out: map<string, int>)
    requires NamesDistinct(AllContainers(pod))
    ensures NamesDistinct(AllContainers(PatchPod(pod, out)))
  {
    var all, after := AllContainers(pod), AllContainers(PatchPod(pod, out));
    assert forall k :: 0 <= k < |all| ==> after[k].name == all[k].name;
  }

  lemma {:induction false} LimitsAreRequests(rcs: seq<Resizable>)
    requires forall i :: 0 <= i < |rcs| ==> rcs[i].request == rcs[i].limit > 0
    ensures SumLimits(rcs) == PodRequest(rcs)
  {
    if rcs != [] {
      LimitsAreRequests(rcs[..|rcs| - 1]);
    }
  }

  lemma PinnedMeansGuaranteed(pod: Pod, out: map<string, int>)
    requires PodValid(pod) && GuaranteedAtRequest(pod)
    requires IsSplit(out, PodRequest(ResizableContainers(pod)), ResizableContainers(pod))
    ensures LimitsEqualRequests(PatchPod(pod, out))
  {
    var all, after := AllContainers(pod), AllContainers(PatchPod(pod, out));
    forall c | c in after
      ensures c.cpuLimit > 0 && c.memLimit > 0 && c.cpuRequest == c.cpuLimit && c.memRequest == c.memLimit
    {
      var k :| 0 <= k < |after| && after[k] == c;
      PatchedAt(pod, out, k);
      PinnedContainer(pod, out, k);
    }
  }

  lemma PinnedContainer(pod: Pod, out: map<string, int>, k: nat)
    requires PodValid(pod) && GuaranteedAtRequest(pod) && k < |AllContainers(pod)|
    requires IsSplit(out, PodRequest(ResizableContainers(pod)), ResizableContainers(pod))
    ensures var c := PatchContainer(AllContainers(pod)[k], out);
      c.cpuLimit > 0 && c.memLimit > 0 && c.cpuRequest == c.cpuLimit && c.memRequest == c.memLimit
  {
    var c, rcs := AllContainers(pod)[k], ResizableContainers(pod);
    if k < |pod.containers| {
      assert c in pod.containers;
    } else {
      assert c == pod.inits[k - |pod.containers|];
    }
    if k < |pod.containers| || c.restartable {
      var i := ResizableIndex(pod, k);
      PatchedShare(pod, out, PodRequest(rcs), k, i);
      CpuValid(pod);
      ResizableRequestsValid(pod);
      SplitOfRequest(rcs, i);
    } else {
      OthersKeepTheirLimits(pod, out, PodRequest(rcs), k - |pod.containers|);
    }
  }

  // ---- Preservation ----

  /** Whatever is decided for a pod, applying it by split never makes the pod Guaranteed. */
  lemma {:induction false} DecidedTargetKeepsClass(pod: Pod, p: PodInput, s: NodeStats, cfg: Config,
                                                   out: map<string, int>)
    requires PodValid(pod) && !pod.podLevelResources
    requires s.managedRequests > 0 ==> s.managedPods > 0
    requires p.request == PodRequest(ResizableContainers(pod)) && p.aboveRequest == GuaranteedAtRequest(pod)
    requires Decide(p, s, cfg).target >= 0 ==> IsSplit(out, Decide(p, s, cfg).target, ResizableContainers(pod))
    ensures !Guaranteed(PatchPod(pod, out))
  {
    CpuValid(pod);
    ResizableRequestsValid(pod);
    PodRequestSigns(ResizableContainers(pod));
    TargetBounds(p, s, cfg);
    GuaranteedExactly(pod, out, Decide(p, s, cfg).target);
  }
}
