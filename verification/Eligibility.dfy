/** The containers Headroom resizes and what they request and carry
    (`internal/eligibility/eligibility.go`). */
module Eligibility {

  datatype Container = Container(
    name: string,
    cpuRequest: int,
    cpuLimit: int,     // 0 = unset
    memRequest: int,
    memLimit: int,     // 0 = unset
    restartable: bool) // restart policy Always: a native sidecar when it is an init container

  datatype Pod = Pod(containers: seq<Container>, inits: seq<Container>, podLevelResources: bool)

  datatype Resizable = Resizable(name: string, request: int, limit: int)

  function AsResizable(c: Container): Resizable {
    Resizable(c.name, c.cpuRequest, c.cpuLimit)
  }

  function AllOf(cs: seq<Container>): (rcs: seq<Resizable>)
    ensures |rcs| == |cs| && forall i :: 0 <= i < |cs| ==> rcs[i] == AsResizable(cs[i])
  {
    if cs == [] then [] else AllOf(cs[..|cs| - 1]) + [AsResizable(cs[|cs| - 1])]
  }

  function Sidecars(inits: seq<Container>): seq<Resizable> {
    if inits == [] then []
    else
      var last := inits[|inits| - 1];
      Sidecars(inits[..|inits| - 1]) + (if last.restartable then [AsResizable(last)] else [])
  }

  /** App containers, then native sidecars. Other init containers have run by then. */
  function ResizableContainers(pod: Pod): seq<Resizable> {
    AllOf(pod.containers) + Sidecars(pod.inits)
  }

  method CollectResizable(pod: Pod) returns (out: seq<Resizable>)
    ensures out == ResizableContainers(pod)
  {
    out := [];
    for i := 0 to |pod.containers|
      invariant out == AllOf(pod.containers[..i])
    {
      assert pod.containers[..i + 1][..i] == pod.containers[..i];
      out := out + [AsResizable(pod.containers[i])];
    }
    assert pod.containers[..|pod.containers|] == pod.containers;
    for i := 0 to |pod.inits|
      invariant out == AllOf(pod.containers) + Sidecars(pod.inits[..i])
    {
      assert pod.inits[..i + 1][..i] == pod.inits[..i];
      if pod.inits[i].restartable {
        out := out + [AsResizable(pod.inits[i])];
      }
    }
    assert pod.inits[..|pod.inits|] == pod.inits;
  }

  /** How many of the containers run on as sidecars. */
  function Restartables(inits: seq<Container>): nat {
    if inits == [] then 0
    else Restartables(inits[..|inits| - 1]) + (if inits[|inits| - 1].restartable then 1 else 0)
  }

  lemma {:induction false} SidecarAt(inits: seq<Container>, k: nat)
    requires k < |inits| && inits[k].restartable
    ensures |Sidecars(inits)| == Restartables(inits) > Restartables(inits[..k])
    ensures Sidecars(inits)[Restartables(inits[..k])] == AsResizable(inits[k])
    decreases |inits|
  {
    var front := inits[..|inits| - 1];
    SidecarsCount(front);
    if k < |front| {
      SidecarAt(front, k);
      assert front[..k] == inits[..k];
    }
  }

  lemma {:induction false} SidecarsCount(inits: seq<Container>)
    ensures |Sidecars(inits)| == Restartables(inits)
  {
    if inits != [] {
      SidecarsCount(inits[..|inits| - 1]);
    }
  }

  /** Where each container stands: app containers in their own order, then sidecars in theirs, and no
      others. */
  lemma ResizableInOrder(pod: Pod)
    ensures |ResizableContainers(pod)| == |pod.containers| + Restartables(pod.inits)
    ensures forall k :: 0 <= k < |pod.containers| ==> ResizableContainers(pod)[k] == AsResizable(pod.containers[k])
    ensures forall k :: 0 <= k < |pod.inits| && pod.inits[k].restartable ==>
      && Restartables(pod.inits[..k]) < Restartables(pod.inits)
      && ResizableContainers(pod)[|pod.containers| + Restartables(pod.inits[..k])] == AsResizable(pod.inits[k])
  {
    SidecarsCount(pod.inits);
    forall k | 0 <= k < |pod.inits| && pod.inits[k].restartable
      ensures Restartables(pod.inits[..k]) < Restartables(pod.inits)
      ensures ResizableContainers(pod)[|pod.containers| + Restartables(pod.inits[..k])] == AsResizable(pod.inits[k])
    {
      SidecarAt(pod.inits, k);
    }
  }

  // ---- Aggregates ----

  function PodRequest(rcs: seq<Resizable>): int {
    if rcs == [] then 0 else PodRequest(rcs[..|rcs| - 1]) + rcs[|rcs| - 1].request
  }

  method SumRequests(rcs: seq<Resizable>) returns (sum: int)
    ensures sum == PodRequest(rcs)
  {
    sum := 0;
    for i := 0 to |rcs|
      invariant sum == PodRequest(rcs[..i])
    {
      assert rcs[..i + 1][..i] == rcs[..i];
      sum := sum + rcs[i].request;
    }
    assert rcs[..|rcs|] == rcs;
  }

  /** The limits of the containers that request CPU. */
  function SumLimits(rcs: seq<Resizable>): int {
    if rcs == [] then 0
    else
      var last := rcs[|rcs| - 1];
      SumLimits(rcs[..|rcs| - 1]) + (if last.request > 0 then last.limit else 0)
  }

  predicate FullyBounded(rcs: seq<Resizable>) {
    forall c :: c in rcs && c.request > 0 ==> c.limit > 0
  }

  /** The pod's enforced limit, or 0 unless every container that requests CPU has one. */
  function PodCurrentLimit(rcs: seq<Resizable>): int {
    if FullyBounded(rcs) then SumLimits(rcs) else 0
  }

  method ReadCurrentLimit(rcs: seq<Resizable>) returns (sum: int)
    ensures sum == PodCurrentLimit(rcs)
  {
    sum := 0;
    for i := 0 to |rcs|
      invariant sum == SumLimits(rcs[..i]) && FullyBounded(rcs[..i])
    {
      assert rcs[..i + 1][..i] == rcs[..i] && rcs[..i + 1] == rcs[..i] + [rcs[i]];
      var c := rcs[i];
      if c.request <= 0 {
        continue;
      }
      if c.limit <= 0 {
        return 0;
      }
      sum := sum + c.limit;
    }
    assert rcs[..|rcs|] == rcs;
  }

  // ---- What the API server guarantees about a pod's spec ----

  /** Requests are validated to be non-negative. */
  ghost predicate RequestsValid(rcs: seq<Resizable>) {
    forall c :: c in rcs ==> c.request >= 0
  }

  ghost predicate DistinctNames(rcs: seq<Resizable>) {
    forall i, j :: 0 <= i < j < |rcs| ==> rcs[i].name != rcs[j].name
  }

  lemma {:induction false} PodRequestSigns(rcs: seq<Resizable>)
    requires RequestsValid(rcs)
    ensures PodRequest(rcs) >= 0
    ensures forall c :: c in rcs ==> c.request <= PodRequest(rcs)
  {
    if rcs != [] {
      var front, last := rcs[..|rcs| - 1], rcs[|rcs| - 1];
      assert rcs == front + [last];
      PodRequestSigns(front);
    }
  }
}
