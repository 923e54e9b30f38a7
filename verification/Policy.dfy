/** The CPU-limit policy: a node's allocatable CPU and the pods bound to it decide each managed
    pod's target limit (`internal/policy/policy.go`). Milli-cores are integers; the source's
    floating-point intermediates are exact reals here. */
module Policy {

  /** A pod's namespace and name, which the source joins with a slash. */
  datatype PodKey = PodKey(ns: string, name: string)

  datatype PodInput = PodInput(
    key: PodKey,
    request: int,
    bookedDelta: int,     // the scheduler's booking minus the request
    currentLimit: int,    // 0 = unset
    managed: bool,
    holdsShare: bool,     // managed but backed off: counts in M and N, gets no decision
    userCap: int,         // 0 = none
    limitRangeCap: int,   // 0 = none
    aboveRequest: bool)   // limit == request would make the pod Guaranteed

  datatype Config = Config(
    minBurstFloor: int,
    maxMultiplier: real,  // at most 0 disables the cap
    deadbandGrow: real,
    deadbandShrink: real,
    quantum: int)

  datatype Reason = NoSlack | Set | Grow | Shrink | Unchanged | AboveGuaranteed | WithinDeadband

  datatype Decision = Decision(key: PodKey, target: int, apply: bool, reason: Reason)

  datatype NodeStats = NodeStats(
    allocatable: int,
    totalRequests: int,
    managedRequests: int, // M
    slack: int,           // S, floored at 0
    managedPods: int,     // N
    factor: real)

  // ---- Arithmetic the source relies on ----

  function Min(a: int, b: int): int { if a < b then a else b }

  function Max(a: int, b: int): int { if a > b then a else b }

  /** Integer division as Go does it, toward zero. */
  function TruncDiv(a: int, b: int): int
    requires b > 0
  {
    if a >= 0 then a / b else -((-a) / b)
  }

  /** `math.Round`: to the nearest integer, halves away from zero. */
  function Round(x: real): int {
    if x >= 0.0 then (x + 0.5).Floor else -((0.5 - x).Floor)
  }

  // ---- Node aggregates ----

  predicate InBasis(p: PodInput) {
    p.managed || p.holdsShare
  }

  function TotalBooked(pods: seq<PodInput>): int {
    if pods == [] then 0
    else TotalBooked(pods[..|pods| - 1]) + pods[|pods| - 1].request + pods[|pods| - 1].bookedDelta
  }

  /** M: the requests of the pods slack is shared out to. */
  function BasisRequests(pods: seq<PodInput>): int {
    if pods == [] then 0
    else BasisRequests(pods[..|pods| - 1]) + (if InBasis(pods[|pods| - 1]) then pods[|pods| - 1].request else 0)
  }

  /** N: how many pods that is. */
  function BasisCount(pods: seq<PodInput>): nat {
    if pods == [] then 0
    else BasisCount(pods[..|pods| - 1]) + (if InBasis(pods[|pods| - 1]) then 1 else 0)
  }

  /** Requests sum to something positive only where there is a pod to hold them. */
  lemma {:induction false} BasisIsPopulated(pods: seq<PodInput>)
    ensures BasisCount(pods) == 0 ==> BasisRequests(pods) == 0
  {
    if pods != [] {
      BasisIsPopulated(pods[..|pods| - 1]);
    }
  }

  function Stats(allocatable: int, pods: seq<PodInput>): (s: NodeStats)
    ensures s.managedRequests > 0 ==> s.managedPods > 0
  {
    BasisIsPopulated(pods);
    var slack := allocatable - TotalBooked(pods);
    var m := BasisRequests(pods);
    NodeStats(allocatable, TotalBooked(pods), m, Max(slack, 0), BasisCount(pods),
              if m > 0 && slack > 0 then 1.0 + slack as real / m as real else 1.0)
  }

  // ---- One pod's decision ----

  /** The tighter of the pod's two ceilings; 0 = none. */
  function PodCap(p: PodInput): int {
    if p.userCap <= 0 || (p.limitRangeCap > 0 && p.limitRangeCap < p.userCap) then p.limitRangeCap else p.userCap
  }

  /** A pod's share of the slack in proportion to its request. */
  function Proportional(slack: int, request: int, m: int): real
    requires m > 0
  {
    slack as real * request as real / m as real
  }

  /** The configured floor, or the equal share of the slack where that is less. */
  function Floor(configured: int, slack: int, n: int): real
    requires n > 0
  {
    var equalShare := slack as real / n as real;
    if configured as real < equalShare then configured as real else equalShare
  }

  /** The proportional share, or the slack-aware floor where that is more. */
  function Burst(request: int, s: NodeStats, cfg: Config): real
    requires s.managedRequests > 0 && s.managedPods > 0
  {
    var proportional := Proportional(s.slack, request, s.managedRequests);
    var floor := Floor(cfg.minBurstFloor, s.slack, s.managedPods);
    if proportional > floor then proportional else floor
  }

  /** So many times the request. */
  function Multiple(request: int, cfg: Config): int {
    Round(request as real * cfg.maxMultiplier)
  }

  /** The highest limit the caps allow, but never less than the request. */
  function Ceiling(request: int, allocatable: int, podCap: int, cfg: Config): int {
    var byMultiplier := if cfg.maxMultiplier > 0.0 then Min(allocatable, Multiple(request, cfg)) else allocatable;
    var capped := if podCap > 0 then Min(byMultiplier, podCap) else byMultiplier;
    Max(capped, request)
  }

  /** Round to the nearest quantum, stepping back where that crosses the ceiling. */
  function Quantize(raw: int, request: int, hi: int, quantum: int): int {
    if quantum <= 0 then raw
    else
      var nearest := TruncDiv(raw + quantum / 2, quantum) * quantum;
      var inside := if nearest > hi then nearest - quantum else nearest;
      Max(inside, request)
  }

  function ClampAndQuantize(raw: int, request: int, allocatable: int, podCap: int, cfg: Config): int {
    var hi := Ceiling(request, allocatable, podCap, cfg);
    Quantize(Min(Max(raw, request), hi), request, hi, cfg.quantum)
  }

  /** The next quantum above the request, bent to a LimitRange that leaves less room than that. */
  function Lift(p: PodInput, target: int, cfg: Config): int {
    if p.aboveRequest && target <= p.request then
      var q := Max(cfg.quantum, 1);
      var next := (TruncDiv(p.request, q) + 1) * q;
      if p.limitRangeCap > p.request then Min(next, p.limitRangeCap) else next
    else target
  }

  /** Whether a change of limit is worth a patch. */
  predicate WorthApplying(target: int, current: int, cfg: Config) {
    target != current &&
    (current <= 0 ||
     var distance := if target < current then current - target else target - current;
     distance as real / current as real >= (if target < current then cfg.deadbandShrink else cfg.deadbandGrow))
  }

  function ReasonFor(target: int, current: int): Reason {
    if current <= 0 then Set else if target > current then Grow else if target < current then Shrink else Unchanged
  }

  function Finalize(p: PodInput, target: int, reason: Reason, cfg: Config): Decision {
    var lifted := Lift(p, target, cfg);
    var base := if p.aboveRequest && target <= p.request then AboveGuaranteed else reason;
    var apply := WorthApplying(lifted, p.currentLimit, cfg);
    Decision(p.key, lifted, apply,
             if lifted == p.currentLimit then Unchanged else if apply then base else WithinDeadband)
  }

  /** The limit before caps and rounding: the request, or the request and its burst. */
  function Raw(request: int, s: NodeStats, cfg: Config): int
    requires s.managedRequests > 0 ==> s.managedPods > 0
  {
    if s.slack <= 0 || s.managedRequests <= 0 then request else request + Round(Burst(request, s, cfg))
  }

  function Decide(p: PodInput, s: NodeStats, cfg: Config): Decision
    requires s.managedRequests > 0 ==> s.managedPods > 0
  {
    var target := ClampAndQuantize(Raw(p.request, s, cfg), p.request, s.allocatable, PodCap(p), cfg);
    var reason := if s.slack <= 0 || s.managedRequests <= 0 then NoSlack else ReasonFor(target, p.currentLimit);
    Finalize(p, target, reason, cfg)
  }

  // ---- The whole node ----

  /** One decision per managed pod, in input order. */
  function Decisions(pods: seq<PodInput>, s: NodeStats, cfg: Config): seq<Decision>
    requires s.managedRequests > 0 ==> s.managedPods > 0
  {
    if pods == [] then []
    else
      var front, last := pods[..|pods| - 1], pods[|pods| - 1];
      Decisions(front, s, cfg) + (if last.managed then [Decide(last, s, cfg)] else [])
  }

  /** `Compute`: one pass for the sums, one for the decisions. */
  method Compute(allocatable: int, pods: seq<PodInput>, cfg: Config)
    returns (stats: NodeStats, decisions: seq<Decision>)
    ensures stats == Stats(allocatable, pods)
    ensures decisions == Decisions(pods, stats, cfg)
  {
    var totalReq, managedReq, managedCount := 0, 0, 0;
    for i := 0 to |pods|
      invariant totalReq == TotalBooked(pods[..i])
      invariant managedReq == BasisRequests(pods[..i])
      invariant managedCount == BasisCount(pods[..i])
    {
      assert pods[..i + 1][..i] == pods[..i];
      var p := pods[i];
      totalReq := totalReq + p.request + p.bookedDelta;
      if p.managed || p.holdsShare {
        managedReq := managedReq + p.request;
        managedCount := managedCount + 1;
      }
    }
    assert pods[..|pods|] == pods;
    BasisIsPopulated(pods);

    var slack := allocatable - totalReq;
    stats := NodeStats(allocatable, totalReq, managedReq, Max(slack, 0), managedCount, 1.0);
    if managedReq > 0 && slack > 0 {
      stats := stats.(factor := 1.0 + slack as real / managedReq as real);
    }
    decisions := [];
    for i := 0 to |pods|
      invariant decisions == Decisions(pods[..i], stats, cfg)
    {
      assert pods[..i + 1][..i] == pods[..i];
      if pods[i].managed {
        decisions := decisions + [Decide(pods[i], stats, cfg)];
      }
    }
  }

  /** Exactly the managed pods get a decision, each the one `decide` gives it. */
  lemma {:induction false} DecisionsCover(pods: seq<PodInput>, s: NodeStats, cfg: Config, d: Decision)
    requires s.managedRequests > 0 ==> s.managedPods > 0
    ensures d in Decisions(pods, s, cfg) <==> exists p :: p in pods && p.managed && d == Decide(p, s, cfg)
  {
    if pods != [] {
      var front, last := pods[..|pods| - 1], pods[|pods| - 1];
      assert pods == front + [last];
      DecisionsCover(front, s, cfg, d);
    }
  }
}
