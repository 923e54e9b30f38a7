/** What a pass's decisions come to once they are written: limits the API server admits, that keep the
    pod's QoS class and every cap, and that give the pod its share (`internal/controller/podinput.go`,
    `internal/controller/node_controller.go`, `internal/policy/policy.go`). */
module PassWrites {
  import opened Eligibility
  import opened LimitRange
  import opened Options
  import opened Policy
  import opened PodInputs
  import opened Admission
  import opened Qos
  import opened ReconcilePass
  import opened BackoffRuns
  import opened NodeRun
  import opened PassReads
  import opened PolicyTargets
  import opened SplitShares
  import opened Sums
  import PodResize
  import PolicyBounds

  // ---- One pod ----

  /** A decided target, as a limit that can be written. */
  lemma TargetIsNat(v: PodView, s: NodeStats, cfg: Config, past: Past)
    requires s.managedRequests > 0 ==> s.managedPods > 0
    requires ViewValid(v) && SharesSlack(v)
    ensures 0 < Request(v) <= DecisionFor(v, s, cfg, past).target
    ensures InputOf(v, past).request == Request(v)
  {
    PolicyBounds.TargetBounds(InputOf(v, past), s, cfg);
  }

  /** Writing the target decided for a pod never makes it Guaranteed. */
  lemma NeverGuaranteed(v: PodView, s: NodeStats, cfg: Config, past: Past, after: PodView)
    requires s.managedRequests > 0 ==> s.managedPods > 0
    requires ViewValid(v) && SharesSlack(v) && DecisionFor(v, s, cfg, past).target >= 0
    requires IsResized(v, DecisionFor(v, s, cfg, past).target, after)
    ensures !Guaranteed(after.pod)
  {
    var target := DecisionFor(v, s, cfg, past).target;
    var out: map<string, int> :|
      IsSplit(out, target, Containers(v)) && after == v.(pod := PodResize.PatchPod(v.pod, out));
    DecidedTargetKeepsClass(v.pod, InputOf(v, past), s, cfg, out);
  }

  /** The LimitRanges set no cap, or one that leaves room for what the pod needs. */
  predicate LeavesRoom(v: PodView, past: Past) {
    var cap := CapOf(v, past);
    cap == 0 || cap > Request(v) || (1 < cap == Request(v) && !GuaranteedAtRequest(v.pod))
  }

  /** A pod that its LimitRanges admit, container by container and as a whole. */
  ghost predicate IsAdmitted(after: PodView, limitRanges: seq<seq<LimitItem>>) {
    forall item :: item in Items(limitRanges) ==> Admits(item, Containers(after), after.podRequest)
  }

  ghost predicate IsReadAsAdmitted(after: PodView, limitRanges: seq<seq<LimitItem>>, past: Past) {
    forall item :: item in Items(limitRanges) ==> ReadsAsAdmitted(item, Containers(after), after.podRequest, past)
  }

  lemma KeptIsNotNegative(v: PodView)
    requires ViewValid(v)
    ensures Untouched(Containers(v)) >= 0 && RequestsValid(Containers(v))
  {
    CpuValid(v.pod);
    PodResize.ResizableRequestsValid(v.pod);
    PodResize.ResizableShape(v.pod);
    assert forall c :: c in v.pod.containers || c in v.pod.inits ==> c in PodResize.AllContainers(v.pod);
    UntouchedIsNotNegative(Containers(v));
  }

  lemma {:induction false} UntouchedIsNotNegative(rcs: seq<Resizable>)
    requires forall c :: c in rcs ==> c.limit >= 0
    ensures Untouched(rcs) >= 0
  {
    if rcs != [] {
      UntouchedIsNotNegative(rcs[..|rcs| - 1]);
    }
  }

  lemma WrittenContainers(v: PodView, target: nat, after: PodView)
    requires ViewValid(v) && IsResized(v, target, after)
    ensures Containers(after) == Resized(target, Containers(v)) && after.podRequest == v.podRequest
  {
    var out: map<string, int> :|
      IsSplit(out, target, Containers(v)) && after == v.(pod := PodResize.PatchPod(v.pod, out));
    CpuValid(v.pod);
    PodResize.PatchIsResize(v.pod, out, target);
  }

  /** Where a pod's LimitRanges leave room, the pod with its decided target written is one they admit. */
  lemma {:induction false} WrittenIsAdmitted(v: PodView, s: NodeStats, cfg: Config, past: Past, after: PodView)
    requires s.managedRequests > 0 ==> s.managedPods > 0
    requires ViewValid(v) && SharesSlack(v) && v.limitRanges.Some? && LeavesRoom(v, past)
    requires 0 <= DecisionFor(v, s, cfg, past).target <= INT64_MAX
    requires AllFarFromInt64(DecisionFor(v, s, cfg, past).target, Containers(v), v.podRequest, v.limitRanges.value)
    requires IsResized(v, DecisionFor(v, s, cfg, past).target, after)
    ensures IsAdmitted(after, v.limitRanges.value)
    ensures v.podRequest > 0
            && OffByLessThanOne(past, DecisionFor(v, s, cfg, past).target + Sum(KeptLimits(Containers(v)))) ==>
      IsReadAsAdmitted(after, v.limitRanges.value, past)
  {
    var target := DecisionFor(v, s, cfg, past).target;
    TargetIsNat(v, s, cfg, past);
    KeptIsNotNegative(v);
    UntouchedIsKept(Containers(v));
    WrittenContainers(v, target, after);
    DecidedTargetIsAdmitted(InputOf(v, past), s, cfg, Containers(v), v.podRequest, v.limitRanges.value, past);
  }

  /** Apart from the lift off its request, a pod's target is at its request, or within the node, the
      multiplier, the user's cap and the LimitRanges' cap. */
  lemma WrittenIsCapped(v: PodView, s: NodeStats, cfg: Config, past: Past)
    requires s.managedRequests > 0 ==> s.managedPods > 0
    requires ViewValid(v) && SharesSlack(v)
    ensures var target, lifted := DecisionFor(v, s, cfg, past).target, GuaranteedAtRequest(v.pod);
      || target == Request(v)
      || (lifted && Request(v) < target <= NextUp(Request(v), cfg))
      || (&& target <= s.allocatable
          && (cfg.maxMultiplier > 0.0 ==> WithinMultiplier(target, Request(v), cfg.maxMultiplier))
          && (v.userCap > 0 ==> target <= v.userCap)
          && (CapOf(v, past) > 0 ==> target <= CapOf(v, past)))
  {
    TargetIsNat(v, s, cfg, past);
    ReadsCaps(v, past);
    TargetUnderCaps(InputOf(v, past), s, cfg);
  }

  /** What a pod's input says of its caps. */
  lemma ReadsCaps(v: PodView, past: Past)
    requires SharesSlack(v)
    ensures var p := InputOf(v, past);
      && p.request == Request(v) && p.userCap == v.userCap && p.limitRangeCap == CapOf(v, past)
      && p.aboveRequest == GuaranteedAtRequest(v.pod)
  {
  }

  /** A decision that gives the pod its part of the slack over its request: no more, but for the lift, and
      no less unless the next limit up is over a cap. */
  ghost predicate IsFairFor(d: Decision, v: PodView, s: NodeStats, cfg: Config, past: Past) {
    var over := d.target - Request(v);
    && SharesSlack(v) && v.key == d.key
    && (ReachesShare(over, Request(v), s, cfg) || !UnderCaps(NextUp(d.target, cfg), InputOf(v, past), s, cfg))
    && (WithinShare(over, Request(v), s, cfg) || (GuaranteedAtRequest(v.pod) && over <= Max(cfg.quantum, 1)))
  }

  lemma WrittenIsShare(v: PodView, s: NodeStats, cfg: Config, past: Past)
    requires s.slack > 0 && s.managedRequests > 0 && s.managedPods > 0
    requires ViewValid(v) && SharesSlack(v)
    ensures IsFairFor(DecisionFor(v, s, cfg, past), v, s, cfg, past)
  {
    TargetIsNat(v, s, cfg, past);
    ReadsCaps(v, past);
    TargetReachesShare(InputOf(v, past), s, cfg);
    TargetWithinShare(InputOf(v, past), s, cfg);
  }

  // ---- The limit a pod carries ----

  function RequestedLimits(rcs: seq<Resizable>): (s: seq<int>)
    ensures |s| == |rcs| && forall i :: 0 <= i < |rcs| ==> s[i] == if rcs[i].request > 0 then rcs[i].limit else 0
  {
    seq(|rcs|, i requires 0 <= i < |rcs| => if rcs[i].request > 0 then rcs[i].limit else 0)
  }

  /** The limit a pod carries is the sum over the containers that request CPU, and none to speak of where
      one of them has no limit. */
  lemma CurrentLimitExactly(rcs: seq<Resizable>)
    ensures (forall i :: 0 <= i < |rcs| && rcs[i].request > 0 ==> rcs[i].limit > 0) ==>
      PodCurrentLimit(rcs) == Sum(RequestedLimits(rcs))
    ensures (exists i :: 0 <= i < |rcs| && rcs[i].request > 0 && rcs[i].limit <= 0) ==> PodCurrentLimit(rcs) == 0
  {
    SumLimitsIsSum(rcs, RequestedLimits(rcs));
    if FullyBounded(rcs) {
      assert forall i :: 0 <= i < |rcs| ==> rcs[i] in rcs;
    }
  }

  /** A pod in which some container that requests CPU has no limit is always patched. */
  lemma UnboundedIsPatched(v: PodView, s: NodeStats, cfg: Config, past: Past, i: nat)
    requires s.managedRequests > 0 ==> s.managedPods > 0
    requires ViewValid(v) && SharesSlack(v)
    requires i < |Containers(v)| && Containers(v)[i].request > 0 && Containers(v)[i].limit <= 0
    ensures Wants(v, s, cfg, past)
  {
    CurrentLimitExactly(Containers(v));
    TargetIsNat(v, s, cfg, past);
    ApplyExactly(InputOf(v, past), s, cfg);
  }

  // ---- Every decision of a pass ----

  /** A decision, and what writing it would do to its pod. */
  ghost predicate IsSafeFor(d: Decision, v: PodView, cfg: Config, past: Past) {
    && SharesSlack(v) && ViewValid(v) && v.key == d.key && 0 < Request(v) <= d.target
    && (forall after :: IsResized(v, d.target, after) ==> !Guaranteed(after.pod))
    && (v.userCap > 0 && !GuaranteedAtRequest(v.pod) ==> d.target <= Max(Request(v), v.userCap))
    && (v.limitRanges.Some? && LeavesRoom(v, past) && d.target <= INT64_MAX
        && AllFarFromInt64(d.target, Containers(v), v.podRequest, v.limitRanges.value) ==>
        forall after :: IsResized(v, d.target, after) ==> IsAdmitted(after, v.limitRanges.value))
  }

  lemma DecisionIsSafe(v: PodView, s: NodeStats, cfg: Config, past: Past)
    requires s.managedRequests > 0 ==> s.managedPods > 0
    requires ViewValid(v) && SharesSlack(v)
    ensures IsSafeFor(DecisionFor(v, s, cfg, past), v, cfg, past)
  {
    var d := DecisionFor(v, s, cfg, past);
    TargetIsNat(v, s, cfg, past);
    WrittenIsCapped(v, s, cfg, past);
    forall after | IsResized(v, d.target, after) ensures !Guaranteed(after.pod) {
      NeverGuaranteed(v, s, cfg, past, after);
    }
    if v.limitRanges.Some? && LeavesRoom(v, past) && d.target <= INT64_MAX
       && AllFarFromInt64(d.target, Containers(v), v.podRequest, v.limitRanges.value) {
      forall after | IsResized(v, d.target, after) ensures IsAdmitted(after, v.limitRanges.value) {
        WrittenIsAdmitted(v, s, cfg, past, after);
      }
    }
  }

  /** Every decision of a pass is for a listed pod, and safe to write: it keeps the pod's QoS class and the
      user's cap, and its LimitRanges admit it where they leave room. */
  lemma DecisionsAreSafe(p: Pass, b: Backoff, period: Time, past: Past, d: Decision) returns (v: PodView)
    requires ViewsValid(ViewsOf(p.os))
    requires !RunPass(p, b, period, past).built.failed && d in RunPass(p, b, period, past).decisions
    ensures v in ViewsOf(p.os) && IsSafeFor(d, v, p.cfg, past)
  {
    var s := NodeStatsOf(p.allocatable, ViewsOf(p.os), past);
    v := DecidedPod(p, b, period, past, s, d);
    DecisionIsSafe(v, s, p.cfg, past);
  }

  lemma ListedIsValid(views: seq<PodView>, v: PodView)
    requires ViewsValid(views) && v in views && SharesSlack(v)
    ensures ViewValid(v)
  {
    var i :| 0 <= i < |views| && views[i] == v;
    assert SharesSlack(views[i]) ==> ViewValid(views[i]);
  }

  /** The listed pod a decision is for. */
  lemma DecidedPod(p: Pass, b: Backoff, period: Time, past: Past, s: NodeStats, d: Decision) returns (v: PodView)
    requires ViewsValid(ViewsOf(p.os)) && s == NodeStatsOf(p.allocatable, ViewsOf(p.os), past)
    requires !RunPass(p, b, period, past).built.failed && d in RunPass(p, b, period, past).decisions
    ensures v in ViewsOf(p.os) && ViewValid(v) && SharesSlack(v) && d == DecisionFor(v, s, p.cfg, past)
  {
    DecisionsAreWindowFree(p, b, period, past, d);
    v :| v in ViewsOf(p.os) && SharesSlack(v) && v.key == d.key && d == DecisionFor(v, s, p.cfg, past);
    ListedIsValid(ViewsOf(p.os), v);
  }

  /** ... and gives the pod its share of the slack the node shows. */
  lemma DecisionsAreFair(p: Pass, b: Backoff, period: Time, past: Past, s: NodeStats, d: Decision)
    returns (v: PodView)
    requires ViewsValid(ViewsOf(p.os)) && s == RunPass(p, b, period, past).stats
    requires !RunPass(p, b, period, past).built.failed && d in RunPass(p, b, period, past).decisions
    requires s.slack > 0 && s.managedRequests > 0
    ensures v in ViewsOf(p.os) && IsFairFor(d, v, s, p.cfg, past)
    ensures IsStatsOf(s, p.allocatable, ViewsOf(p.os))
  {
    WindowsLeaveStatsAlone(p, b, period, past);
    v := DecidedPod(p, b, period, past, s, d);
    WrittenIsShare(v, s, p.cfg, past);
    StatsReadViews(p, b, period, past);
  }
}
