/** Adding a pod to a node never raises anyone else's target (`internal/policy/policy.go`). */
module PolicyMonotone {
  import opened Policy
  import opened PolicyBounds
  import opened Sums

  // ---- What a newcomer does to the node's sums ----

  function WithPod(pods: seq<PodInput>, at: nat, newcomer: PodInput): seq<PodInput>
    requires at <= |pods|
  {
    pods[..at] + [newcomer] + pods[at..]
  }

  lemma {:induction false} NewcomerSums(pods: seq<PodInput>, at: nat, newcomer: PodInput)
    requires at <= |pods|
    ensures var after := WithPod(pods, at, newcomer);
            && TotalBooked(after) == TotalBooked(pods) + newcomer.request + newcomer.bookedDelta
            && BasisRequests(after) == BasisRequests(pods) + (if InBasis(newcomer) then newcomer.request else 0)
            && BasisCount(after) == BasisCount(pods) + (if InBasis(newcomer) then 1 else 0)
  {
    var after := WithPod(pods, at, newcomer);
    if at == |pods| {
      assert after[..|after| - 1] == pods;
    } else {
      var front := pods[..|pods| - 1];
      NewcomerSums(front, at, newcomer);
      assert after[..|after| - 1] == WithPod(front, at, newcomer);
    }
  }

  lemma {:induction false} BasisIsPositive(pods: seq<PodInput>, p: PodInput)
    requires p in pods && InBasis(p) && p.request > 0
    requires forall x :: x in pods && InBasis(x) ==> x.request >= 0
    ensures BasisRequests(pods) > 0
  {
    var front, last := pods[..|pods| - 1], pods[|pods| - 1];
    assert pods == front + [last];
    if p in front {
      BasisIsPositive(front, p);
    } else {
      BasisIsNonNegative(front);
    }
  }

  lemma {:induction false} BasisIsNonNegative(pods: seq<PodInput>)
    requires forall x :: x in pods && InBasis(x) ==> x.request >= 0
    ensures BasisRequests(pods) >= 0
  {
    if pods != [] {
      var front, last := pods[..|pods| - 1], pods[|pods| - 1];
      assert pods == front + [last];
      BasisIsNonNegative(front);
    }
  }

  // ---- Each stage of a decision is monotone ----

  lemma QuotientMonotone(x: real, b: real, y: real, a: real)
    requires 0.0 <= x <= y && 0.0 < a <= b
    ensures 0.0 <= x / b <= y / a
  {
    var u, v := x / b, y / a;
    assert u * b == x && v * a == y;
    if u < 0.0 {
      RealScale(b, u, 0.0);
    }
    if v < u {
      RealScale(u, a, b);
      RealScaleLess(a, v, u);
    }
  }

  lemma RoundMonotone(x: real, y: real)
    requires 0.0 <= x <= y
    ensures 0 <= Round(x) <= Round(y)
  {
  }

  lemma ProportionalMonotone(less: int, slack: int, request: int, m: int, more: int)
    requires 0 <= less <= slack && request >= 0 && 0 < m <= more
    ensures 0.0 <= Proportional(less, request, more) <= Proportional(slack, request, m)
  {
    var r := request as real;
    RealScale(r, 0.0, less as real);
    RealScale(r, less as real, slack as real);
    QuotientMonotone(less as real * r, more as real, slack as real * r, m as real);
  }

  /** Less slack shared among more: no burst grows. */
  lemma BurstMonotone(request: int, before: NodeStats, after: NodeStats, cfg: Config)
    requires request >= 0
    requires 0 <= after.slack <= before.slack
    requires 0 < before.managedRequests <= after.managedRequests
    requires 0 < before.managedPods <= after.managedPods
    ensures 0.0 <= Burst(request, after, cfg) <= Burst(request, before, cfg)
  {
    ProportionalMonotone(after.slack, before.slack, request, before.managedRequests, after.managedRequests);
    QuotientMonotone(after.slack as real, after.managedPods as real, before.slack as real, before.managedPods as real);
  }

  lemma RawMonotone(request: int, before: NodeStats, after: NodeStats, cfg: Config)
    requires request >= 0
    requires 0 <= after.slack <= before.slack
    requires 0 < before.managedRequests <= after.managedRequests
    requires 0 < before.managedPods <= after.managedPods
    ensures request <= Raw(request, after, cfg) <= Raw(request, before, cfg)
  {
    if before.slack > 0 {
      BurstMonotone(request, before, before, cfg);
      RoundMonotone(0.0, Burst(request, before, cfg));
      if after.slack > 0 {
        BurstMonotone(request, before, after, cfg);
        RoundMonotone(Burst(request, after, cfg), Burst(request, before, cfg));
      }
    }
  }

  lemma QuantizeMonotone(low: int, high: int, request: int, hi: int, q: int)
    requires 0 <= request <= low <= high <= hi
    ensures Quantize(low, request, hi, q) <= Quantize(high, request, hi, q)
  {
    if q > 0 {
      DivMod(low + q / 2, q);
      DivMod(high + q / 2, q);
      var m, n := (low + q / 2) / q, (high + q / 2) / q;
      assert TruncDiv(low + q / 2, q) * q == m * q && TruncDiv(high + q / 2, q) * q == n * q;
      if n < m {
        GridSteps(n, m, q);
      } else if m < n {
        GridSteps(m, n, q);
      }
    }
  }

  /** The lift keeps the order of two targets of one pod. */
  lemma LiftMonotone(p: PodInput, low: int, high: int, cfg: Config)
    requires 0 <= p.request <= low <= high
    requires cfg.quantum > 0 ==> high == p.request || OnGrid(high, cfg.quantum)
    ensures Lift(p, low, cfg) <= Lift(p, high, cfg)
  {
    if p.aboveRequest && low <= p.request < high {
      var q := Max(cfg.quantum, 1);
      DivMod(p.request, q);
      if cfg.quantum > 0 {
        var k :| high == k * q;
        if k <= p.request / q {
          if k < p.request / q {
            GridSteps(k, p.request / q, q);
          }
        } else if p.request / q + 1 < k {
          GridSteps(p.request / q + 1, k, q);
        }
      }
    }
  }

  lemma {:induction false} DecideMonotone(p: PodInput, before: NodeStats, after: NodeStats, cfg: Config)
    requires p.request >= 0 && before.allocatable == after.allocatable
    requires 0 <= after.slack <= before.slack
    requires 0 < before.managedRequests <= after.managedRequests
    requires 0 < before.managedPods <= after.managedPods
    ensures Decide(p, after, cfg).target <= Decide(p, before, cfg).target
  {
    RawMonotone(p.request, before, after, cfg);
    var hi := Ceiling(p.request, before.allocatable, PodCap(p), cfg);
    var low, high := Min(Raw(p.request, after, cfg), hi), Min(Raw(p.request, before, cfg), hi);
    QuantizeMonotone(low, high, p.request, hi, cfg.quantum);
    UnliftedBounds(p, before, cfg);
    UnliftedBounds(p, after, cfg);
    LiftMonotone(p, Unlifted(p, after, cfg), Unlifted(p, before, cfg), cfg);
  }

  // ---- Monotonicity ----

  ghost predicate BasisIsSound(pods: seq<PodInput>) {
    forall x :: x in pods && InBasis(x) ==> x.request >= 0
  }

  /** Binding any pod to the node, whether managed, holding a share or unmanaged, never raises the
      target of a pod already there, where somebody there requests something. */
  lemma {:induction false} NewcomerNeverRaises(allocatable: int, pods: seq<PodInput>, at: nat, newcomer: PodInput,
                                               p: PodInput, cfg: Config)
    requires at <= |pods| && p.request >= 0
    requires BasisRequests(pods) > 0
    requires newcomer.request >= 0 && newcomer.request + newcomer.bookedDelta >= 0
    ensures var before, after := Stats(allocatable, pods), Stats(allocatable, WithPod(pods, at, newcomer));
            Decide(p, after, cfg).target <= Decide(p, before, cfg).target
  {
    NewcomerSums(pods, at, newcomer);
    BasisIsPopulated(pods);
    DecideMonotone(p, Stats(allocatable, pods), Stats(allocatable, WithPod(pods, at, newcomer)), cfg);
  }

  /** Any number of newcomers, wherever they land in the list. */
  lemma {:induction false} NewcomersNeverRaise(allocatable: int, pods: seq<PodInput>, newcomers: seq<(nat, PodInput)>,
                                               p: PodInput, cfg: Config)
    requires p.request >= 0 && BasisRequests(pods) > 0
    requires forall k :: 0 <= k < |newcomers| ==>
      && newcomers[k].0 <= |pods| + k
      && newcomers[k].1.request >= 0 && newcomers[k].1.request + newcomers[k].1.bookedDelta >= 0
    ensures Decide(p, Stats(allocatable, WithPods(pods, newcomers)), cfg).target
         <= Decide(p, Stats(allocatable, pods), cfg).target
    decreases |newcomers|
  {
    BasisIsPopulated(pods);
    if newcomers != [] {
      var (at, newcomer) := newcomers[0];
      NewcomerNeverRaises(allocatable, pods, at, newcomer, p, cfg);
      NewcomerSums(pods, at, newcomer);
      NewcomersNeverRaise(allocatable, WithPod(pods, at, newcomer), newcomers[1..], p, cfg);
    }
  }

  function WithPods(pods: seq<PodInput>, newcomers: seq<(nat, PodInput)>): seq<PodInput>
    requires forall k :: 0 <= k < |newcomers| ==> newcomers[k].0 <= |pods| + k
    decreases |newcomers|
  {
    if newcomers == [] then pods else WithPods(WithPod(pods, newcomers[0].0, newcomers[0].1), newcomers[1..])
  }

  // ---- Where nobody requests anything ----

  /** What of a burst over no request survives the grid: half a quantum of burst, and a quantum of
      room. */
  lemma {:induction false} QuantizeAboveNothing(raw: int, hi: int, q: int)
    requires 0 <= raw <= hi
    ensures Quantize(raw, 0, hi, q) > 0 <==> hi >= Max(q, 1) && raw >= (if q > 0 then q - q / 2 else 1)
  {
    if q > 0 {
      DivMod(raw + q / 2, q);
      var k := (raw + q / 2) / q;
      assert TruncDiv(raw + q / 2, q) * q == k * q;
      if k >= 2 {
        GridSteps(1, k, q);
      }
    }
  }

  /** On a node whose basis requests nothing, which eligibility never makes, a newcomer raises a pod that
      requests nothing exactly when it brings a request to the basis, slack is left, and the floor it
      opens and the room under the caps both reach the grid. */
  lemma {:induction false} RisesFromNothing(allocatable: int, pods: seq<PodInput>, at: nat, newcomer: PodInput,
                                            p: PodInput, cfg: Config)
    requires at <= |pods| && p.request == 0 && !p.aboveRequest
    requires BasisRequests(pods) == 0 && newcomer.request >= 0
    ensures var before, after := Stats(allocatable, pods), Stats(allocatable, WithPod(pods, at, newcomer));
      Decide(p, after, cfg).target > Decide(p, before, cfg).target <==>
        && InBasis(newcomer) && newcomer.request > 0 && after.slack > 0 && after.managedPods > 0
        && Ceiling(0, allocatable, PodCap(p), cfg) >= Max(cfg.quantum, 1)
        && Round(Floor(cfg.minBurstFloor, after.slack, after.managedPods)) >=
             (if cfg.quantum > 0 then cfg.quantum - cfg.quantum / 2 else 1)
  {
    var before, after := Stats(allocatable, pods), Stats(allocatable, WithPod(pods, at, newcomer));
    var hi := Ceiling(0, allocatable, PodCap(p), cfg);
    NewcomerSums(pods, at, newcomer);
    QuantizeAboveNothing(0, hi, cfg.quantum);
    UnliftedBounds(p, before, cfg);
    assert Decide(p, before, cfg).target == 0;
    if after.managedRequests > 0 && after.slack > 0 {
      BurstOfNothing(after, cfg);
      var raw := Min(Max(Raw(0, after, cfg), 0), hi);
      QuantizeAboveNothing(raw, hi, cfg.quantum);
    }
  }

  lemma BurstOfNothing(s: NodeStats, cfg: Config)
    requires s.managedRequests > 0 && s.managedPods > 0
    ensures var floor := Floor(cfg.minBurstFloor, s.slack, s.managedPods);
      Burst(0, s, cfg) == if floor > 0.0 then floor else 0.0
  {
    assert s.slack as real * 0.0 == 0.0 && 0.0 / s.managedRequests as real == 0.0;
  }
}
