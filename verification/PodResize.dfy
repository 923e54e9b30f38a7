/** A split written to a pod's containers by name, and the pod as it reads afterwards
    (`internal/controller/node_controller.go`, `applyResize`; `internal/controller/podinput.go`). */
module PodResize {
  import opened Eligibility
  import opened Split
  import opened SplitShares
  import opened Admission

  function AllContainers(pod: Pod): seq<Container> {
    pod.containers + pod.inits
  }

  /** Container names are unique within a pod, init containers included. */
  ghost predicate NamesDistinct(cs: seq<Container>) {
    forall i, j :: 0 <= i < j < |cs| ==> cs[i].name != cs[j].name
  }

  ghost predicate CpuRequestsValid(cs: seq<Container>) {
    forall c :: c in cs ==> c.cpuRequest >= 0
  }

  // ---- The patch ----

  function PatchContainer(c: Container, out: map<string, int>): Container {
    if c.name in out then c.(cpuLimit := out[c.name]) else c
  }

  function PatchContainers(cs: seq<Container>, out: map<string, int>): (after: seq<Container>)
    ensures |after| == |cs| && forall i :: 0 <= i < |cs| ==> after[i] == PatchContainer(cs[i], out)
  {
    seq(|cs|, i requires 0 <= i < |cs| => PatchContainer(cs[i], out))
  }

  /** `applyResize`: only the CPU limits of the named containers change. */
  function PatchPod(pod: Pod, out: map<string, int>): Pod {
    pod.(containers := PatchContainers(pod.containers, out), inits := PatchContainers(pod.inits, out))
  }

  function PatchResizable(rcs: seq<Resizable>, out: map<string, int>): (after: seq<Resizable>)
    ensures |after| == |rcs|
    ensures forall i :: 0 <= i < |rcs| ==>
      after[i] == if rcs[i].name in out then rcs[i].(limit := out[rcs[i].name]) else rcs[i]
  {
    seq(|rcs|, i requires 0 <= i < |rcs| =>
      if rcs[i].name in out then rcs[i].(limit := out[rcs[i].name]) else rcs[i])
  }

  // ---- Patching commutes with reading ----

  lemma {:induction false} SidecarsPatched(inits: seq<Container>, out: map<string, int>)
    ensures Sidecars(PatchContainers(inits, out)) == PatchResizable(Sidecars(inits), out)
  {
    if inits != [] {
      var front, last := inits[..|inits| - 1], inits[|inits| - 1];
      SidecarsPatched(front, out);
      assert PatchContainers(inits, out)[..|inits| - 1] == PatchContainers(front, out);
    }
  }

  lemma ResizablePatched(pod: Pod, out: map<string, int>)
    ensures ResizableContainers(PatchPod(pod, out)) == PatchResizable(ResizableContainers(pod), out)
  {
    SidecarsPatched(pod.inits, out);
    assert AllOf(PatchContainers(pod.containers, out)) == PatchResizable(AllOf(pod.containers), out);
  }

  lemma {:induction false} SidecarsShape(inits: seq<Container>)
    requires NamesDistinct(inits)
    ensures DistinctNames(Sidecars(inits))
    ensures forall rc :: rc in Sidecars(inits) <==> exists c :: c in inits && c.restartable && rc == AsResizable(c)
  {
    if inits != [] {
      var front, last := inits[..|inits| - 1], inits[|inits| - 1];
      assert inits == front + [last];
      SidecarsShape(front);
      forall rc | rc in Sidecars(front) ensures rc.name != last.name {
        var c :| c in front && c.restartable && rc == AsResizable(c);
        var i :| 0 <= i < |front| && front[i] == c;
        assert inits[i].name != inits[|inits| - 1].name;
      }
    }
  }

  /** What the resizable containers are: every app container and every restartable init container. */
  lemma ResizableShape(pod: Pod)
    requires NamesDistinct(AllContainers(pod))
    ensures DistinctNames(ResizableContainers(pod))
    ensures forall rc :: rc in ResizableContainers(pod) <==>
      || (exists c :: c in pod.containers && rc == AsResizable(c))
      || (exists c :: c in pod.inits && c.restartable && rc == AsResizable(c))
  {
    PartsAreDistinct(pod);
    SidecarsShape(pod.inits);
    var apps, sidecars := AllOf(pod.containers), Sidecars(pod.inits);
    forall i, j | 0 <= i < |apps| && 0 <= j < |sidecars| ensures apps[i].name != sidecars[j].name {
      assert sidecars[j] in sidecars;
      var c :| c in pod.inits && c.restartable && sidecars[j] == AsResizable(c);
    }
    JoinedNames(apps, sidecars);
  }

  lemma PartsAreDistinct(pod: Pod)
    requires NamesDistinct(AllContainers(pod))
    ensures NamesDistinct(pod.inits) && DistinctNames(AllOf(pod.containers))
    ensures forall i, j :: 0 <= i < |pod.containers| && 0 <= j < |pod.inits| ==>
      pod.containers[i].name != pod.inits[j].name
  {
    var all, n := AllContainers(pod), |pod.containers|;
    forall i, j | 0 <= i < j < |pod.inits| ensures pod.inits[i].name != pod.inits[j].name {
      assert all[n + i] == pod.inits[i] && all[n + j] == pod.inits[j];
    }
    forall i, j | 0 <= i < j < n ensures pod.containers[i].name != pod.containers[j].name {
      assert all[i] == pod.containers[i] && all[j] == pod.containers[j];
    }
    forall i, j | 0 <= i < n && 0 <= j < |pod.inits| ensures pod.containers[i].name != pod.inits[j].name {
      assert all[i] == pod.containers[i] && all[n + j] == pod.inits[j];
    }
  }

  lemma JoinedNames(a: seq<Resizable>, b: seq<Resizable>)
    requires DistinctNames(a) && DistinctNames(b)
    requires forall i, j :: 0 <= i < |a| && 0 <= j < |b| ==> a[i].name != b[j].name
    ensures DistinctNames(a + b)
  {
  }

  lemma ResizableRequestsValid(pod: Pod)
    requires NamesDistinct(AllContainers(pod)) && CpuRequestsValid(AllContainers(pod))
    ensures RequestsValid(ResizableContainers(pod))
  {
    ResizableShape(pod);
    var all := AllContainers(pod);
    assert forall c :: c in pod.containers || c in pod.inits ==> c in all;
  }

  /** Writing a split and reading the containers back gives the containers with their shares. */
  lemma {:induction false} PatchIsResize(pod: Pod, out: map<string, int>, target: nat)
    requires NamesDistinct(AllContainers(pod)) && CpuRequestsValid(AllContainers(pod))
    requires PodRequest(ResizableContainers(pod)) > 0
    requires IsSplit(out, target, ResizableContainers(pod))
    ensures ResizableContainers(PatchPod(pod, out)) == Resized(target, ResizableContainers(pod))
  {
    var rcs := ResizableContainers(pod);
    ResizablePatched(pod, out);
    ResizableShape(pod);
    SplitNamesTheRequesting(rcs, out, target);
    assert PatchResizable(rcs, out) == Resized(target, rcs);
  }

  lemma SplitNamesTheRequesting(rcs: seq<Resizable>, out: map<string, int>, target: nat)
    requires DistinctNames(rcs) && PodRequest(rcs) > 0 && IsSplit(out, target, rcs)
    ensures forall i :: 0 <= i < |rcs| ==> (rcs[i].name in out <==> rcs[i].request > 0)
  {
  }

  /** No resizable container shares a name with an init container that has run. */
  lemma OtherNames(pod: Pod, k: nat)
    requires NamesDistinct(AllContainers(pod)) && k < |pod.inits| && !pod.inits[k].restartable
    ensures forall rc :: rc in ResizableContainers(pod) ==> rc.name != pod.inits[k].name
  {
    PartsAreDistinct(pod);
    SidecarsShape(pod.inits);
    var apps, sidecars := AllOf(pod.containers), Sidecars(pod.inits);
    forall rc | rc in ResizableContainers(pod) ensures rc.name != pod.inits[k].name {
      if rc in sidecars {
        var c :| c in pod.inits && c.restartable && rc == AsResizable(c);
        var j :| 0 <= j < |pod.inits| && pod.inits[j] == c;
        assert j != k;
      } else {
        assert rc in apps;
      }
    }
  }

  /** A container Headroom does not resize keeps its limit. */
  lemma {:induction false} OthersKeepTheirLimits(pod: Pod, out: map<string, int>, target: nat, k: nat)
    requires NamesDistinct(AllContainers(pod)) && PodRequest(ResizableContainers(pod)) > 0
    requires IsSplit(out, target, ResizableContainers(pod))
    requires k < |pod.inits| && !pod.inits[k].restartable
    ensures PatchContainer(pod.inits[k], out) == pod.inits[k]
  {
    var rcs := ResizableContainers(pod);
    OtherNames(pod, k);
    assert forall i :: 0 <= i < |rcs| ==> rcs[i] in rcs;
  }

  /** Where a resizable container stands among the resizable containers. */
  lemma ResizableIndex(pod: Pod, k: nat) returns (i: nat)
    requires NamesDistinct(AllContainers(pod)) && k < |AllContainers(pod)|
    requires k < |pod.containers| || AllContainers(pod)[k].restartable
    ensures i < |ResizableContainers(pod)| && ResizableContainers(pod)[i] == AsResizable(AllContainers(pod)[k])
  {
    var c, rcs := AllContainers(pod)[k], ResizableContainers(pod);
    if k < |pod.containers| {
      i := k;
      assert rcs[k] == AllOf(pod.containers)[k];
    } else {
      PartsAreDistinct(pod);
      SidecarsShape(pod.inits);
      assert c == pod.inits[k - |pod.containers|];
      assert AsResizable(c) in Sidecars(pod.inits);
      assert AsResizable(c) in rcs;
      i :| 0 <= i < |rcs| && rcs[i] == AsResizable(c);
    }
  }

  /** A resizable container gets its share if it requests CPU, and is left alone if not. */
  lemma PatchedShare(pod: Pod, out: map<string, int>, target: nat, k: nat, i: nat)
    requires NamesDistinct(AllContainers(pod)) && PodRequest(ResizableContainers(pod)) > 0
    requires IsSplit(out, target, ResizableContainers(pod))
    requires k < |AllContainers(pod)| && i < |ResizableContainers(pod)|
    requires ResizableContainers(pod)[i] == AsResizable(AllContainers(pod)[k])
    ensures var c := AllContainers(pod)[k];
      PatchContainer(c, out) ==
        if c.cpuRequest > 0 then c.(cpuLimit := Share(target, ResizableContainers(pod), i)) else c
  {
    var rcs := ResizableContainers(pod);
    ResizableShape(pod);
    SplitNamesTheRequesting(rcs, out, target);
    assert (rcs[i].name in out) <==> rcs[i].request > 0;
  }

  lemma PatchedAt(pod: Pod, out: map<string, int>, k: nat)
    requires k < |AllContainers(pod)|
    ensures AllContainers(PatchPod(pod, out))[k] == PatchContainer(AllContainers(pod)[k], out)
  {
  }
}
