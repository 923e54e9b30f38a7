/** What a decided target is: a pod's request and its share of the slack, held under the caps
    (`internal/policy/policy.go`). */
module PolicyTargets {
  import opened Policy
  import opened PolicyBounds
  import opened PolicyMonotone
  import opened Sums

  // ---- The caps ----

  /** At most so many times the request, to the nearest milli-core. */
  ghost predicate WithinMultiplier(t: int, request: int, multiplier: real) {
    t as real <= request as real * multiplier + 0.5
  }

  /** Under the node, the multiplier, the user's cap and the LimitRange, where each is set. */
  ghost predicate UnderCaps(t: int, p: PodInput, s: NodeStats, cfg: Config) {
    && t <= s.allocatable
    && (cfg.maxMultiplier > 0.0 ==> WithinMultiplier(t, p.request, cfg.maxMultiplier))
    && (p.userCap > 0 ==> t <= p.userCap)
    && (p.limitRangeCap > 0 ==> t <= p.limitRangeCap)
  }

  lemma BelowRound(t: int, x: real)
    requires x >= 0.0
    ensures t <= Round(x) <==> t as real <= x + 0.5
  {
  }

  lemma BelowMultiple(t: int, request: int, cfg: Config)
    requires request >= 0 && cfg.maxMultiplier > 0.0
    ensures t <= Multiple(request, cfg) <==> WithinMultiplier(t, request, cfg.maxMultiplier)
  {
    assert request as real * cfg.maxMultiplier >= 0.0;
    BelowRound(t, request as real * cfg.maxMultiplier);
  }

  lemma BelowPodCap(t: int, p: PodInput)
    ensures PodCap(p) > 0 ==> (t <= PodCap(p) <==> (p.userCap > 0 ==> t <= p.userCap)
                                                   && (p.limitRangeCap > 0 ==> t <= p.limitRangeCap))
    ensures PodCap(p) <= 0 ==> p.userCap <= 0 && p.limitRangeCap <= 0
  {
  }

  /** The caps, with the multiplier as the policy rounds it and the pod's two caps as one. */
  ghost predicate UnderParts(t: int, allocatable: int, bounded: bool, multiple: int, podCap: int) {
    t <= allocatable && (bounded ==> t <= multiple) && (podCap > 0 ==> t <= podCap)
  }

  lemma CeilingInParts(t: int, request: int, allocatable: int, podCap: int, cfg: Config)
    requires request < t
    ensures t <= Ceiling(request, allocatable, podCap, cfg) <==>
      UnderParts(t, allocatable, cfg.maxMultiplier > 0.0, Multiple(request, cfg), podCap)
  {
  }

  lemma CapsInParts(t: int, p: PodInput, s: NodeStats, cfg: Config)
    requires p.request >= 0
    ensures UnderCaps(t, p, s, cfg) <==>
      UnderParts(t, s.allocatable, cfg.maxMultiplier > 0.0, Multiple(p.request, cfg), PodCap(p))
  {
    BelowPodCap(t, p);
    if cfg.maxMultiplier > 0.0 {
      BelowMultiple(t, p.request, cfg);
    }
  }

  /** The ceiling is the caps taken together, for whatever is above the request. */
  lemma CeilingIsCaps(t: int, p: PodInput, s: NodeStats, cfg: Config)
    requires 0 <= p.request < t
    ensures t <= Ceiling(p.request, s.allocatable, PodCap(p), cfg) <==> UnderCaps(t, p, s, cfg)
  {
    CeilingInParts(t, p.request, s.allocatable, PodCap(p), cfg);
    CapsInParts(t, p, s, cfg);
  }

  // ---- Rounding ----

  lemma RoundAtLeast(n: int, d: int, b: real)
    requires d > 0 && b >= 0.0 && b >= n as real / d as real
    ensures 2 * (d * Round(b)) + d >= 2 * n
  {
    var x, r := n as real / d as real, Round(b);
    assert x * d as real == n as real;
    assert r as real + 0.5 >= x;
    RealScale(d as real, x, r as real + 0.5);
    assert d as real * (r as real + 0.5) == (d * r) as real + d as real / 2.0;
  }

  lemma RoundAtMost(n: int, d: int, b: real)
    requires d > 0 && b >= 0.0 && b == n as real / d as real
    ensures 2 * (d * Round(b)) <= 2 * n + d
  {
    var r := Round(b);
    assert b * d as real == n as real;
    RealScale(d as real, r as real, b + 0.5);
    assert d as real * (b + 0.5) == n as real + d as real / 2.0;
    assert d as real * r as real == (d * r) as real;
  }

  /** Quantizing moves a limit by at most half a quantum, unless the next grid point up is past the
      ceiling; and by no more than half a quantum up in any case. */
  lemma QuantizeNear(raw: int, request: int, hi: int, q: int)
    requires 0 <= request <= raw <= hi
    ensures var t := Quantize(raw, request, hi, q);
      && 2 * (t - raw) <= Max(q, 0)
      && (2 * (raw - t) <= Max(q, 0) || t + Max(q, 1) > hi)
      && (raw == hi ==> t + Max(q, 1) > hi)
  {
    if q > 0 {
      NearestIsNear(raw, q);
    }
  }

  // ---- A pod's share ----

  /** The larger of the pod's proportional share and its floor, which never exceeds an equal share. */
  lemma BurstIsShare(request: int, s: NodeStats, cfg: Config)
    requires s.slack > 0 && s.managedRequests > 0 && s.managedPods > 0 && request >= 0
    ensures var b, m, n := Burst(request, s, cfg), s.managedRequests, s.managedPods;
      var least := Min(n * cfg.minBurstFloor, s.slack);
      && b >= 0.0
      && b >= (s.slack * request) as real / m as real && b >= least as real / n as real
      && (b == (s.slack * request) as real / m as real || b == least as real / n as real)
  {
    var n := s.managedPods;
    ProportionalMonotone(s.slack, s.slack, request, s.managedRequests, s.managedRequests);
    assert (s.slack * request) as real == s.slack as real * request as real;
    FloorIsLeast(cfg.minBurstFloor, s.slack, n);
  }

  lemma FloorIsLeast(configured: int, slack: int, n: int)
    requires n > 0
    ensures Floor(configured, slack, n) == Min(n * configured, slack) as real / n as real
  {
    var share, whole := slack as real / n as real, (n * configured) as real / n as real;
    assert n as real * share == slack as real;
    Cancels(configured as real, n as real);
    assert (n * configured) as real == n as real * configured as real;
    if configured as real < share {
      RealScaleLess(n as real, configured as real, share);
    } else {
      RealScale(n as real, share, configured as real);
    }
  }

  lemma Cancels(x: real, d: real)
    requires d > 0.0
    ensures d * x / d == x
  {
  }

  /** No less over its request than the pod's part of the slack, by requests and by the floor, up to half
      a quantum and half a milli-core. */
  ghost predicate ReachesShare(over: int, request: int, s: NodeStats, cfg: Config) {
    var m, n, slop := s.managedRequests, s.managedPods, Max(cfg.quantum, 0) + 1;
    && 2 * (m * over) + m * slop >= 2 * (s.slack * request)
    && 2 * (n * over) + n * slop >= 2 * Min(n * cfg.minBurstFloor, s.slack)
  }

  /** No more over its request than the larger of the two, up to as much. */
  ghost predicate WithinShare(over: int, request: int, s: NodeStats, cfg: Config) {
    var m, n, slop := s.managedRequests, s.managedPods, Max(cfg.quantum, 0) + 1;
    || 2 * (m * over) <= 2 * (s.slack * request) + m * slop
    || 2 * (n * over) <= 2 * Min(n * cfg.minBurstFloor, s.slack) + n * slop
  }

  /** The next limit up that the policy could decide. */
  function NextUp(t: int, cfg: Config): int {
    t + Max(cfg.quantum, 1)
  }

  lemma Near(d: int, n: int, rounded: int, over: int, q: int)
    requires d > 0 && q >= 0
    ensures 2 * (d * rounded) + d >= 2 * n && 2 * (rounded - over) <= q ==> 2 * (d * over) + d * (q + 1) >= 2 * n
    ensures 2 * (d * rounded) <= 2 * n + d && 2 * (over - rounded) <= q ==> 2 * (d * over) <= 2 * n + d * (q + 1)
  {
    Distribute(d, q, 1);
    if 2 * (rounded - over) <= q {
      Scale(d, 2 * (rounded - over), q);
      assert d * (2 * (rounded - over)) == 2 * (d * rounded) - 2 * (d * over);
    }
    if 2 * (over - rounded) <= q {
      Scale(d, 2 * (over - rounded), q);
      assert d * (2 * (over - rounded)) == 2 * (d * over) - 2 * (d * rounded);
    }
  }

  lemma RawIsShare(request: int, s: NodeStats, cfg: Config)
    requires s.slack > 0 && s.managedRequests > 0 && s.managedPods > 0 && request >= 0
    ensures var m, n, over := s.managedRequests, s.managedPods, Raw(request, s, cfg) - request;
      var least := Min(n * cfg.minBurstFloor, s.slack);
      && over >= 0
      && 2 * (m * over) + m >= 2 * (s.slack * request) && 2 * (n * over) + n >= 2 * least
      && (2 * (m * over) <= 2 * (s.slack * request) + m || 2 * (n * over) <= 2 * least + n)
  {
    var b, m, n := Burst(request, s, cfg), s.managedRequests, s.managedPods;
    var least := Min(n * cfg.minBurstFloor, s.slack);
    BurstIsShare(request, s, cfg);
    RoundAtLeast(s.slack * request, m, b);
    RoundAtLeast(least, n, b);
    if b == (s.slack * request) as real / m as real {
      RoundAtMost(s.slack * request, m, b);
    } else {
      RoundAtMost(least, n, b);
    }
  }

  lemma NearShare(request: int, raw: int, t: int, s: NodeStats, cfg: Config)
    requires s.slack > 0 && s.managedRequests > 0 && s.managedPods > 0 && request >= 0 && raw == Raw(request, s, cfg)
    ensures 2 * (raw - t) <= Max(cfg.quantum, 0) ==> ReachesShare(t - request, request, s, cfg)
    ensures 2 * (t - raw) <= Max(cfg.quantum, 0) ==> WithinShare(t - request, request, s, cfg)
  {
    var m, n, q := s.managedRequests, s.managedPods, Max(cfg.quantum, 0);
    RawIsShare(request, s, cfg);
    Near(m, s.slack * request, raw - request, t - request, q);
    Near(n, Min(n * cfg.minBurstFloor, s.slack), raw - request, t - request, q);
  }

  lemma LargerReaches(over: int, less: int, request: int, s: NodeStats, cfg: Config)
    requires less <= over && s.managedRequests > 0 && s.managedPods > 0 && ReachesShare(less, request, s, cfg)
    ensures ReachesShare(over, request, s, cfg)
  {
    Scale(s.managedRequests, less, over);
    Scale(s.managedPods, less, over);
  }

  lemma UnliftedIsShare(p: PodInput, s: NodeStats, cfg: Config)
    requires s.slack > 0 && s.managedRequests > 0 && s.managedPods > 0 && p.request >= 0
    ensures var t := Unlifted(p, s, cfg);
      && (ReachesShare(t - p.request, p.request, s, cfg) || !UnderCaps(NextUp(t, cfg), p, s, cfg))
      && WithinShare(t - p.request, p.request, s, cfg)
  {
    var hi, raw := Ceiling(p.request, s.allocatable, PodCap(p), cfg), Raw(p.request, s, cfg);
    var t := Unlifted(p, s, cfg);
    RawIsShare(p.request, s, cfg);
    UnliftedBounds(p, s, cfg);
    QuantizeNear(Min(raw, hi), p.request, hi, cfg.quantum);
    CeilingIsCaps(NextUp(t, cfg), p, s, cfg);
    NearShare(p.request, raw, t, s, cfg);
  }

  // ---- Every target ----

  /** Where there is slack, a target gives the pod no less than its share, unless the next limit up is
      over one of its caps; a target is then as high as the caps let it be. */
  lemma {:induction false} TargetReachesShare(p: PodInput, s: NodeStats, cfg: Config)
    requires s.slack > 0 && s.managedRequests > 0 && s.managedPods > 0 && p.request >= 0
    ensures var t := Decide(p, s, cfg).target;
      ReachesShare(t - p.request, p.request, s, cfg) || !UnderCaps(NextUp(t, cfg), p, s, cfg)
  {
    var t, unlifted := Decide(p, s, cfg).target, Unlifted(p, s, cfg);
    TargetBounds(p, s, cfg);
    UnliftedIsShare(p, s, cfg);
    if ReachesShare(unlifted - p.request, p.request, s, cfg) {
      LargerReaches(t - p.request, unlifted - p.request, p.request, s, cfg);
    }
  }

  /** It gives the pod no more than its share, apart from the quantum by which a pod is lifted off its
      request. */
  lemma {:induction false} TargetWithinShare(p: PodInput, s: NodeStats, cfg: Config)
    requires s.slack > 0 && s.managedRequests > 0 && s.managedPods > 0 && p.request >= 0
    ensures var t := Decide(p, s, cfg).target;
      WithinShare(t - p.request, p.request, s, cfg) || (p.aboveRequest && t <= NextUp(p.request, cfg))
  {
    TargetBounds(p, s, cfg);
    UnliftedIsShare(p, s, cfg);
  }

  /** With slack or without, every target is at the request or under every cap, but for that lift. */
  lemma {:induction false} TargetUnderCaps(p: PodInput, s: NodeStats, cfg: Config)
    requires s.managedRequests > 0 ==> s.managedPods > 0
    requires p.request >= 0
    ensures var t := Decide(p, s, cfg).target;
      || t == p.request || UnderCaps(t, p, s, cfg)
      || (p.aboveRequest && p.request < t <= NextUp(p.request, cfg))
  {
    var t := Decide(p, s, cfg).target;
    TargetBounds(p, s, cfg);
    if t > p.request {
      CeilingIsCaps(t, p, s, cfg);
    }
  }

  /** Without slack a target is the request, or the grid point it rounds up to where that is under every
      cap, or what a pod is lifted to. */
  lemma {:induction false} TargetWithoutSlack(p: PodInput, s: NodeStats, cfg: Config)
    requires s.managedRequests > 0 ==> s.managedPods > 0
    requires p.request >= 0 && (s.slack <= 0 || s.managedRequests <= 0)
    ensures var t, q := Decide(p, s, cfg).target, cfg.quantum;
      var roundsUp := q > 0 && 2 * (p.request % q) >= q && UnderCaps(p.request - p.request % q + q, p, s, cfg);
      if roundsUp then t == p.request - p.request % q + q
      else if p.aboveRequest then p.request < t <= NextUp(p.request, cfg) else t == p.request
  {
    var q, hi := cfg.quantum, Ceiling(p.request, s.allocatable, PodCap(p), cfg);
    QuantizeRequest(p.request, hi, q);
    TargetBounds(p, s, cfg);
    if q > 0 && 2 * (p.request % q) >= q {
      DivMod(p.request, q);
      CeilingIsCaps(p.request - p.request % q + q, p, s, cfg);
    }
  }

  lemma FirstGridPoint(t: int, g: int, request: int, q: int)
    requires q > 0 && OnGrid(t, q) && OnGrid(g, q) && t <= request + q && request < g
    ensures t <= g
  {
    var a, b :| t == a * q && g == b * q;
    if b < a {
      GridSteps(b, a, q);
    }
  }

  lemma LiftedIsFirst(p: PodInput, cfg: Config) returns (next: int)
    requires p.request >= 0 && p.aboveRequest
    ensures p.request < next <= NextUp(p.request, cfg) && OnGrid(next, Max(cfg.quantum, 1))
    ensures Lift(p, p.request, cfg) == if p.limitRangeCap > p.request then Min(next, p.limitRangeCap) else next
  {
    LiftBounds(p.(limitRangeCap := 0), cfg);
    next := Lift(p.(limitRangeCap := 0), p.request, cfg);
  }

  lemma UnliftedIsOnGrid(p: PodInput, s: NodeStats, cfg: Config)
    requires s.managedRequests > 0 ==> s.managedPods > 0
    requires p.request >= 0 && Unlifted(p, s, cfg) > p.request && cfg.quantum > 0
    ensures OnGrid(Unlifted(p, s, cfg), cfg.quantum)
  {
    UnliftedBounds(p, s, cfg);
  }

  lemma Whole(t: int)
    ensures OnGrid(t, 1)
  {
    assert t == t * 1;
  }

  /** Targets are at the request or on the grid, or what a LimitRange leaves under a quantum above the
      request for a pod that must be off it. */
  lemma {:induction false} TargetIsOnGrid(p: PodInput, s: NodeStats, cfg: Config)
    requires s.managedRequests > 0 ==> s.managedPods > 0
    requires p.request >= 0
    ensures var t := Decide(p, s, cfg).target;
      OnGrid(t, Max(cfg.quantum, 1)) || t == p.request || (p.aboveRequest && t == p.limitRangeCap)
  {
    var t, unlifted := Decide(p, s, cfg).target, Unlifted(p, s, cfg);
    TargetBounds(p, s, cfg);
    if cfg.quantum <= 0 {
      Whole(t);
    } else if unlifted > p.request {
      UnliftedIsOnGrid(p, s, cfg);
    } else if p.aboveRequest {
      var next := LiftedIsFirst(p, cfg);
    }
  }

  /** A pod that must be off its request, and gets no more than the next limit up, gets the first grid
      point above the request, or what its LimitRange leaves where that is less. */
  lemma {:induction false} LiftIsLeast(p: PodInput, s: NodeStats, cfg: Config, g: int)
    requires s.managedRequests > 0 ==> s.managedPods > 0
    requires p.request >= 0 && p.aboveRequest && Decide(p, s, cfg).target <= NextUp(p.request, cfg)
    requires g > p.request && OnGrid(g, Max(cfg.quantum, 1))
    ensures p.request < Decide(p, s, cfg).target <= g
  {
    var t, unlifted := Decide(p, s, cfg).target, Unlifted(p, s, cfg);
    TargetBounds(p, s, cfg);
    if unlifted > p.request {
      if cfg.quantum > 0 {
        UnliftedIsOnGrid(p, s, cfg);
        FirstGridPoint(t, g, p.request, cfg.quantum);
      }
    } else {
      var next := LiftedIsFirst(p, cfg);
      FirstGridPoint(next, g, p.request, Max(cfg.quantum, 1));
    }
  }

  // ---- What is patched, and why ----

  ghost predicate OffByTheBand(target: int, current: int, cfg: Config) {
    || current <= 0
    || (target > current && (target - current) as real >= cfg.deadbandGrow * current as real)
    || (target < current && (current - target) as real >= cfg.deadbandShrink * current as real)
  }

  lemma WorthApplyingExactly(target: int, current: int, cfg: Config)
    ensures WorthApplying(target, current, cfg) <==> target != current && OffByTheBand(target, current, cfg)
  {
    if current > 0 {
      if target > current {
        AtLeastRatio((target - current) as real, current as real, cfg.deadbandGrow);
      } else {
        AtLeastRatio((current - target) as real, current as real, cfg.deadbandShrink);
      }
    }
  }

  /** A decision asks for a patch exactly where the pod has no limit to speak of, or its limit is off the
      target by at least the band for that direction. */
  lemma {:induction false} ApplyExactly(p: PodInput, s: NodeStats, cfg: Config)
    requires s.managedRequests > 0 ==> s.managedPods > 0
    ensures var d := Decide(p, s, cfg);
      d.apply <==> d.target != p.currentLimit && OffByTheBand(d.target, p.currentLimit, cfg)
  {
    WorthApplyingExactly(Decide(p, s, cfg).target, p.currentLimit, cfg);
  }

  lemma AtLeastRatio(x: real, d: real, band: real)
    requires d > 0.0
    ensures x / d >= band <==> x >= band * d
  {
    assert x / d * d == x;
    if x / d < band {
      RealScaleLess(d, x / d, band);
    } else {
      RealScale(d, band, x / d);
    }
  }

  /** The reason a decision carries says what it does: leave the limit alone, or set, raise or lower it,
      and why where it is not for the slack. */
  lemma {:induction false} ReasonIsTrue(p: PodInput, s: NodeStats, cfg: Config)
    requires s.managedRequests > 0 ==> s.managedPods > 0
    requires p.request >= 0
    ensures var d, current, none := Decide(p, s, cfg), p.currentLimit, s.slack <= 0 || s.managedRequests <= 0;
      && (d.reason == Unchanged <==> d.target == current)
      && (d.reason == WithinDeadband <==> d.target != current && !d.apply)
      && (d.reason == AboveGuaranteed ==> p.aboveRequest && d.apply && d.target <= NextUp(p.request, cfg))
      && (d.reason == NoSlack ==> none && d.apply)
      && (d.reason == Set ==> !none && d.apply && current <= 0)
      && (d.reason == Grow ==> !none && d.apply && 0 < current < d.target)
      && (d.reason == Shrink ==> !none && d.apply && current > d.target)
  {
    TargetBounds(p, s, cfg);
  }

  // ---- What the node hands out ----

  /** What the targets of the pods slack is shared among come to over their requests. */
  function SumOver(pods: seq<PodInput>, s: NodeStats, cfg: Config): int
    requires s.managedRequests > 0 ==> s.managedPods > 0
  {
    if pods == [] then 0
    else
      var last := pods[|pods| - 1];
      SumOver(pods[..|pods| - 1], s, cfg) + (if InBasis(last) then Decide(last, s, cfg).target - last.request else 0)
  }

  /** No cap is within a limit of what is decided for the pod. */
  ghost predicate HasRoom(p: PodInput, s: NodeStats, cfg: Config)
    requires s.managedRequests > 0 ==> s.managedPods > 0
  {
    UnderCaps(NextUp(Decide(p, s, cfg).target, cfg), p, s, cfg)
  }

  /** One pod's part of the lower bound, in units of all requests. */
  lemma OnePodLower(over: int, request: int, s: NodeStats, cfg: Config)
    requires ReachesShare(over, request, s, cfg)
    ensures s.managedRequests * (2 * over + (Max(cfg.quantum, 0) + 1)) >= 2 * s.slack * request
  {
    Distribute(s.managedRequests, 2 * over, Max(cfg.quantum, 0) + 1);
  }

  /** Its part of the upper bound, in units of all requests times all pods. */
  lemma OnePodUpper(over: int, request: int, s: NodeStats, cfg: Config)
    requires s.slack >= 0 && request >= 0 && s.managedRequests > 0 && s.managedPods > 0
    requires WithinShare(over, request, s, cfg)
    ensures var m, n := s.managedRequests, s.managedPods;
      m * n * (2 * over - (Max(cfg.quantum, 0) + 1)) <= 2 * s.slack * (request * n + m)
  {
    var slop, m, n := Max(cfg.quantum, 0) + 1, s.managedRequests, s.managedPods;
    if 2 * (m * over) <= 2 * (s.slack * request) + m * slop {
      ByRequest(m, n, over, slop, s.slack, request);
    } else {
      ByFloor(m, n, over, slop, s.slack, request, Min(n * cfg.minBurstFloor, s.slack));
    }
  }

  lemma ByRequest(m: int, n: int, over: int, slop: int, slack: int, request: int)
    requires 2 * (m * over) <= 2 * (slack * request) + m * slop
    requires m > 0 && n > 0 && slack >= 0
    ensures m * n * (2 * over - slop) <= 2 * slack * (request * n + m)
  {
    var y := 2 * over - slop;
    assert m * y == 2 * (m * over) - m * slop;
    Scale(n, m * y, 2 * (slack * request));
    assert n * (m * y) == m * n * y;
    assert n * (2 * (slack * request)) == 2 * slack * (request * n);
    Distribute(2 * slack, request * n, m);
    Scale(2 * slack, 0, m);
  }

  lemma ByFloor(m: int, n: int, over: int, slop: int, slack: int, request: int, floor: int)
    requires 2 * (n * over) <= 2 * floor + n * slop && floor <= slack
    requires m > 0 && n > 0 && slack >= 0 && request >= 0
    ensures m * n * (2 * over - slop) <= 2 * slack * (request * n + m)
  {
    var y := 2 * over - slop;
    assert n * y == 2 * (n * over) - n * slop;
    Scale(m, n * y, 2 * slack);
    assert m * (n * y) == m * n * y;
    assert m * (2 * slack) == 2 * slack * m;
    Distribute(2 * slack, request * n, m);
    Scale(request, 0, n);
    Scale(2 * slack, 0, request * n);
  }

  lemma AddUp(a: int, x: int, y: int, c: int, u: int, v: int)
    ensures a * x >= c * u && a * y >= c * v ==> a * (x + y) >= c * (u + v)
    ensures a * x <= c * u && a * y <= c * v ==> a * (x + y) <= c * (u + v)
  {
    Distribute(a, x, y);
    Distribute(c, u, v);
  }

  /** Twice what is handed out, and `slop` a pod on top. */
  function Widened(pods: seq<PodInput>, s: NodeStats, cfg: Config, slop: int): int
    requires s.managedRequests > 0 ==> s.managedPods > 0
  {
    if pods == [] then 0
    else
      var last := pods[|pods| - 1];
      Widened(pods[..|pods| - 1], s, cfg, slop)
        + (if InBasis(last) then 2 * (Decide(last, s, cfg).target - last.request) + slop else 0)
  }

  function Weights(pods: seq<PodInput>, n: int, m: int): int {
    if pods == [] then 0
    else
      var last := pods[|pods| - 1];
      Weights(pods[..|pods| - 1], n, m) + (if InBasis(last) then last.request * n + m else 0)
  }

  lemma {:induction false} WidenedIs(pods: seq<PodInput>, s: NodeStats, cfg: Config, slop: int)
    requires s.managedRequests > 0 ==> s.managedPods > 0
    ensures Widened(pods, s, cfg, slop) == 2 * SumOver(pods, s, cfg) + slop * BasisCount(pods)
  {
    if pods == [] {
      assert slop * 0 == 0;
    } else {
      var front := pods[..|pods| - 1];
      WidenedIs(front, s, cfg, slop);
      Distribute(slop, BasisCount(front), 1);
    }
  }

  lemma {:induction false} WeightsAre(pods: seq<PodInput>, n: int, m: int)
    ensures Weights(pods, n, m) == n * BasisRequests(pods) + m * BasisCount(pods)
  {
    if pods == [] {
      assert n * 0 == 0 && m * 0 == 0;
    } else {
      var front, last := pods[..|pods| - 1], pods[|pods| - 1];
      WeightsAre(front, n, m);
      Distribute(n, BasisRequests(front), last.request);
      Distribute(m, BasisCount(front), 1);
      assert n * last.request == last.request * n;
    }
  }

  lemma {:induction false} SumOverLower(pods: seq<PodInput>, s: NodeStats, cfg: Config)
    requires s.slack > 0 && s.managedRequests > 0 && s.managedPods > 0
    requires BasisIsSound(pods) && forall p :: p in pods && InBasis(p) ==> HasRoom(p, s, cfg)
    ensures s.managedRequests * Widened(pods, s, cfg, Max(cfg.quantum, 0) + 1) >= 2 * s.slack * BasisRequests(pods)
  {
    var m, slop := s.managedRequests, Max(cfg.quantum, 0) + 1;
    if pods == [] {
      assert m * 0 == 0 && 2 * s.slack * 0 == 0;
    } else {
      var front, last := pods[..|pods| - 1], pods[|pods| - 1];
      assert pods == front + [last];
      SumOverLower(front, s, cfg);
      if InBasis(last) {
        var over := Decide(last, s, cfg).target - last.request;
        TargetReachesShare(last, s, cfg);
        OnePodLower(over, last.request, s, cfg);
        AddUp(m, Widened(front, s, cfg, slop), 2 * over + slop, 2 * s.slack, BasisRequests(front), last.request);
      }
    }
  }

  lemma {:induction false} SumOverUpper(pods: seq<PodInput>, s: NodeStats, cfg: Config)
    requires s.slack > 0 && s.managedRequests > 0 && s.managedPods > 0
    requires BasisIsSound(pods) && forall p :: p in pods && InBasis(p) ==> !p.aboveRequest
    ensures var m, n := s.managedRequests, s.managedPods;
      m * n * Widened(pods, s, cfg, -(Max(cfg.quantum, 0) + 1)) <= 2 * s.slack * Weights(pods, n, m)
  {
    var m, n, slop := s.managedRequests, s.managedPods, Max(cfg.quantum, 0) + 1;
    if pods == [] {
      assert m * n * 0 == 0 && 2 * s.slack * 0 == 0;
    } else {
      var front, last := pods[..|pods| - 1], pods[|pods| - 1];
      assert pods == front + [last];
      SumOverUpper(front, s, cfg);
      if InBasis(last) {
        var over := Decide(last, s, cfg).target - last.request;
        TargetWithinShare(last, s, cfg);
        OnePodUpper(over, last.request, s, cfg);
        AddUp(m * n, Widened(front, s, cfg, -slop), 2 * over - slop, 2 * s.slack, Weights(front, n, m),
              last.request * n + m);
      }
    }
  }

  lemma Divide(a: int, x: int, y: int)
    requires a > 0 && a * x <= a * y
    ensures x <= y
  {
    if x > y {
      Scale(a, y + 1, x);
      Distribute(a, y, 1);
    }
  }

  /** Over the requests, the targets hand out at least the slack where no cap is near, and at most twice
      the slack where no pod has to be lifted, up to half a quantum and half a milli-core for each pod. */
  lemma {:induction false} TargetsShareSlack(allocatable: int, pods: seq<PodInput>, cfg: Config)
    requires BasisIsSound(pods) && Stats(allocatable, pods).slack > 0 && BasisRequests(pods) > 0
    ensures var s, slop := Stats(allocatable, pods), Max(cfg.quantum, 0) + 1;
      && s.managedPods > 0
      && ((forall p :: p in pods && InBasis(p) ==> HasRoom(p, s, cfg)) ==>
          2 * SumOver(pods, s, cfg) >= 2 * s.slack - slop * s.managedPods)
      && ((forall p :: p in pods && InBasis(p) ==> !p.aboveRequest) ==>
          2 * SumOver(pods, s, cfg) <= 4 * s.slack + slop * s.managedPods)
  {
    var s, slop := Stats(allocatable, pods), Max(cfg.quantum, 0) + 1;
    var m, n := s.managedRequests, s.managedPods;
    BasisIsPopulated(pods);
    if forall p :: p in pods && InBasis(p) ==> HasRoom(p, s, cfg) {
      SumOverLower(pods, s, cfg);
      WidenedIs(pods, s, cfg, slop);
      DivideLower(m, Widened(pods, s, cfg, slop), s.slack);
    }
    if forall p :: p in pods && InBasis(p) ==> !p.aboveRequest {
      SumOverUpper(pods, s, cfg);
      WidenedIs(pods, s, cfg, -slop);
      WeightsAre(pods, n, m);
      DivideUpper(m, n, Widened(pods, s, cfg, -slop), s.slack);
      Negate(slop, n);
    }
  }

  lemma Negate(x: int, n: int)
    ensures -x * n == -(x * n)
  {
  }

  lemma DivideLower(m: int, x: int, slack: int)
    requires m > 0 && m * x >= 2 * slack * m
    ensures x >= 2 * slack
  {
    assert 2 * slack * m == m * (2 * slack);
    Divide(m, 2 * slack, x);
  }

  lemma DivideUpper(m: int, n: int, x: int, slack: int)
    requires m > 0 && n > 0 && m * n * x <= 2 * slack * (n * m + m * n)
    ensures x <= 4 * slack
  {
    var a := m * n;
    Scale(m, 1, n);
    assert n * m + m * n == 2 * a;
    assert 2 * slack * (2 * a) == a * (4 * slack);
    Divide(a, x, 4 * slack);
  }

  // ---- Decisions ----

  function ManagedOf(pods: seq<PodInput>): seq<PodInput> {
    if pods == [] then []
    else
      var last := pods[|pods| - 1];
      ManagedOf(pods[..|pods| - 1]) + (if last.managed then [last] else [])
  }

  /** One decision for each managed pod, in the order they are listed. */
  lemma {:induction false} DecisionsInOrder(pods: seq<PodInput>, s: NodeStats, cfg: Config)
    requires s.managedRequests > 0 ==> s.managedPods > 0
    ensures var ds, managed := Decisions(pods, s, cfg), ManagedOf(pods);
      |ds| == |managed| && forall i :: 0 <= i < |ds| ==> ds[i] == Decide(managed[i], s, cfg)
  {
    if pods != [] {
      DecisionsInOrder(pods[..|pods| - 1], s, cfg);
    }
  }

  function SumTargets(ds: seq<Decision>): int {
    if ds == [] then 0 else SumTargets(ds[..|ds| - 1]) + ds[|ds| - 1].target
  }

  /** Where every pod that shares the slack gets a decision, the decisions come to the requests and what
      is handed out over them. */
  lemma {:induction false} DecisionsHandOut(pods: seq<PodInput>, s: NodeStats, cfg: Config)
    requires s.managedRequests > 0 ==> s.managedPods > 0
    requires forall p :: p in pods && InBasis(p) ==> p.managed
    ensures SumTargets(Decisions(pods, s, cfg)) == BasisRequests(pods) + SumOver(pods, s, cfg)
  {
    if pods != [] {
      var front, last := pods[..|pods| - 1], pods[|pods| - 1];
      assert pods == front + [last];
      DecisionsHandOut(front, s, cfg);
      if last.managed {
        assert last in pods;
        var ds := Decisions(front, s, cfg);
        assert (ds + [Decide(last, s, cfg)])[..|ds|] == ds;
      } else {
        assert last in pods && !InBasis(last);
        assert Decisions(front, s, cfg) + [] == Decisions(front, s, cfg);
      }
    }
  }
}
