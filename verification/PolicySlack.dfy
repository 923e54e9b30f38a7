/** How much burst a node hands out in all (`internal/policy/policy.go`). */
module PolicySlack {
  import opened Policy
  import opened PolicyMonotone

  // ---- Sums over the pods slack is shared among ----

  function SumProportional(pods: seq<PodInput>, slack: int, m: int): real
    requires m > 0
  {
    if pods == [] then 0.0
    else
      var last := pods[|pods| - 1];
      SumProportional(pods[..|pods| - 1], slack, m)
        + (if InBasis(last) then Proportional(slack, last.request, m) else 0.0)
  }

  function SumBursts(pods: seq<PodInput>, s: NodeStats, cfg: Config): real
    requires s.managedRequests > 0 && s.managedPods > 0
  {
    if pods == [] then 0.0
    else
      var last := pods[|pods| - 1];
      SumBursts(pods[..|pods| - 1], s, cfg) + (if InBasis(last) then Burst(last.request, s, cfg) else 0.0)
  }

  /** The bursts as added to the requests, in whole milli-cores. */
  function SumRounded(pods: seq<PodInput>, s: NodeStats, cfg: Config): int
    requires s.managedRequests > 0 && s.managedPods > 0
  {
    if pods == [] then 0
    else
      var last := pods[|pods| - 1];
      SumRounded(pods[..|pods| - 1], s, cfg) + (if InBasis(last) then Round(Burst(last.request, s, cfg)) else 0)
  }

  // ---- Scale invariance ----

  lemma ProportionalAdds(slack: int, a: int, b: int, m: int)
    requires m > 0
    ensures Proportional(slack, a + b, m) == Proportional(slack, a, m) + Proportional(slack, b, m)
  {
    var s, x, y, d := slack as real, a as real, b as real, m as real;
    assert (a + b) as real == x + y;
    assert s * (x + y) == s * x + s * y;
    assert (s * x + s * y) / d == s * x / d + s * y / d;
  }

  /** A group's proportional burst depends on its total request alone, so splitting a workload
      into several pods, or merging several into one, changes nothing in aggregate. */
  lemma {:induction false} GroupShareIsByTotalRequest(group: seq<PodInput>, slack: int, m: int)
    requires m > 0
    ensures SumProportional(group, slack, m) == Proportional(slack, BasisRequests(group), m)
  {
    if group == [] {
      assert slack as real * 0.0 == 0.0;
    } else {
      var front, last := group[..|group| - 1], group[|group| - 1];
      GroupShareIsByTotalRequest(front, slack, m);
      ProportionalAdds(slack, BasisRequests(front), if InBasis(last) then last.request else 0, m);
      assert slack as real * 0.0 == 0.0;
    }
  }

  // ---- Slack is handed out at least once and at most twice ----

  function Times(n: nat, x: real): real {
    if n == 0 then 0.0 else Times(n - 1, x) + x
  }

  lemma {:induction false} TimesIsProduct(n: nat, x: real)
    ensures Times(n, x) == n as real * x
  {
    if n > 0 {
      TimesIsProduct(n - 1, x);
      OneMore((n - 1) as real, n as real, x);
    }
  }

  lemma OneMore(k: real, n: real, x: real)
    requires n == k + 1.0
    ensures n * x == k * x + x
  {
  }

  function ShareOf(s: NodeStats): real
    requires s.managedPods > 0
  {
    s.slack as real / s.managedPods as real
  }

  lemma {:induction false} BurstsBetween(pods: seq<PodInput>, s: NodeStats, cfg: Config)
    requires s.slack >= 0 && s.managedRequests > 0 && s.managedPods > 0
    requires BasisIsSound(pods)
    ensures SumProportional(pods, s.slack, s.managedRequests) <= SumBursts(pods, s, cfg)
    ensures SumBursts(pods, s, cfg)
         <= SumProportional(pods, s.slack, s.managedRequests) + Times(BasisCount(pods), ShareOf(s))
  {
    if pods != [] {
      var front, last := pods[..|pods| - 1], pods[|pods| - 1];
      assert pods == front + [last];
      BurstsBetween(front, s, cfg);
      if InBasis(last) {
        OneBurstBetween(last.request, s, cfg);
      }
    }
  }

  lemma OneBurstBetween(request: int, s: NodeStats, cfg: Config)
    requires s.slack >= 0 && s.managedRequests > 0 && s.managedPods > 0 && request >= 0
    ensures var proportional := Proportional(s.slack, request, s.managedRequests);
            proportional <= Burst(request, s, cfg) <= proportional + ShareOf(s)
  {
    QuotientMonotone(0.0, s.managedPods as real, s.slack as real, s.managedPods as real);
    ProportionalMonotone(s.slack, s.slack, request, s.managedRequests, s.managedRequests);
  }

  /** With slack to share, the bursts before caps and rounding sum to at least the slack and at
      most twice the slack. */
  lemma SlackIsSharedOnceToTwice(allocatable: int, pods: seq<PodInput>, cfg: Config)
    requires BasisIsSound(pods)
    requires Stats(allocatable, pods).slack > 0 && BasisRequests(pods) > 0
    ensures var s := Stats(allocatable, pods);
            && s.managedPods > 0
            && s.slack as real <= SumBursts(pods, s, cfg) <= 2.0 * s.slack as real
  {
    var s := Stats(allocatable, pods);
    BasisIsPopulated(pods);
    BurstsBetween(pods, s, cfg);
    GroupShareIsByTotalRequest(pods, s.slack, s.managedRequests);
    WholeShare(s.slack, s.managedRequests);
    EqualShares(s);
  }

  lemma WholeShare(slack: int, m: int)
    requires m > 0
    ensures Proportional(slack, m, m) == slack as real
  {
    Cancel(slack as real, m as real);
  }

  lemma EqualShares(s: NodeStats)
    requires s.managedPods > 0
    ensures Times(s.managedPods, ShareOf(s)) == s.slack as real
  {
    TimesIsProduct(s.managedPods, ShareOf(s));
    Cancel(s.slack as real, s.managedPods as real);
  }

  lemma Cancel(x: real, d: real)
    requires d > 0.0
    ensures x * d / d == x && d * (x / d) == x
  {
  }

  /** Rounding each burst to a milli-core moves the sum by at most half a milli-core a pod. */
  lemma {:induction false} RoundingMovesLittle(pods: seq<PodInput>, s: NodeStats, cfg: Config)
    requires s.managedRequests > 0 && s.managedPods > 0
    ensures -(BasisCount(pods) as real) / 2.0 <= SumRounded(pods, s, cfg) as real - SumBursts(pods, s, cfg)
                                              <= BasisCount(pods) as real / 2.0
  {
    if pods != [] {
      RoundingMovesLittle(pods[..|pods| - 1], s, cfg);
    }
  }

  /** In milli-cores actually added to requests: the slack once to twice over, up to half a
      milli-core for each pod. */
  lemma RoundedSlackBound(allocatable: int, pods: seq<PodInput>, cfg: Config)
    requires BasisIsSound(pods)
    requires Stats(allocatable, pods).slack > 0 && BasisRequests(pods) > 0
    ensures var s := Stats(allocatable, pods);
            && s.managedPods > 0
            && 2 * s.slack - s.managedPods <= 2 * SumRounded(pods, s, cfg) <= 4 * s.slack + s.managedPods
  {
    SlackIsSharedOnceToTwice(allocatable, pods, cfg);
    RoundingMovesLittle(pods, Stats(allocatable, pods), cfg);
  }
}
