/** Where a decided target can lie: between the request and the caps, apart from the QoS lift,
    and at the request when there is no slack, up to rounding (`internal/policy/policy.go`). */
module PolicyBounds {
  import opened Policy

  // ---- Rounding to the grid ----

  lemma DivMod(a: int, q: int)
    requires q > 0
    ensures a == (a / q) * q + a % q && 0 <= a % q < q
  {
  }

  ghost predicate OnGrid(t: int, q: int)
    requires q > 0
  {
    exists k: int :: t == k * q
  }

  lemma GridSteps(a: int, b: int, q: int)
    requires q > 0 && a < b
    ensures a * q + q <= b * q
  {
    assert b * q == a * q + (b - a) * q;
    assert (b - a) * q >= 1 * q by {
      MulAtLeast(b - a, q);
    }
  }

  lemma MulAtLeast(n: int, q: int)
    requires n >= 1 && q >= 0
    ensures n * q >= q
  {
    if n > 1 {
      MulAtLeast(n - 1, q);
      assert n * q == (n - 1) * q + q;
    }
  }

  /** The nearest grid point is within half a quantum. */
  lemma NearestIsNear(raw: int, q: int)
    requires raw >= 0 && q > 0
    ensures var nearest := TruncDiv(raw + q / 2, q) * q;
            raw - q < nearest - q / 2 <= raw && OnGrid(nearest, q)
  {
    DivMod(raw + q / 2, q);
    var k := (raw + q / 2) / q;
    assert TruncDiv(raw + q / 2, q) * q == k * q;
  }

  /** Quantizing stays between the request and the ceiling, and on the grid unless it ends at
      the request. */
  lemma QuantizeBounds(raw: int, request: int, hi: int, q: int)
    requires 0 <= request <= raw <= hi
    ensures request <= Quantize(raw, request, hi, q) <= hi
    ensures q > 0 ==> Quantize(raw, request, hi, q) == request || OnGrid(Quantize(raw, request, hi, q), q)
    ensures q <= 0 ==> Quantize(raw, request, hi, q) == raw
  {
    if q > 0 {
      NearestIsNear(raw, q);
      var nearest := TruncDiv(raw + q / 2, q) * q;
      var k :| nearest == k * q;
      assert nearest - q == (k - 1) * q;
    }
  }

  /** What a request itself quantizes to: up to the next grid point from the midpoint on, where
      that point is under the ceiling, and otherwise the request. */
  lemma QuantizeRequest(request: int, hi: int, q: int)
    requires 0 <= request <= hi
    ensures Quantize(request, request, hi, q) ==
      if q > 0 && request % q >= q - q / 2 && request - request % q + q <= hi
      then request - request % q + q else request
  {
    if q > 0 {
      DivMod(request, q);
      DivMod(request + q / 2, q);
      var k, n := request / q, (request + q / 2) / q;
      assert TruncDiv(request + q / 2, q) * q == n * q;
      if request % q >= q - q / 2 {
        UniqueQuotient(request + q / 2, q, k + 1);
        assert (k + 1) * q == k * q + q;
      } else {
        UniqueQuotient(request + q / 2, q, k);
      }
    }
  }

  lemma UniqueQuotient(a: int, q: int, k: int)
    requires q > 0 && k * q <= a < k * q + q
    ensures a / q == k
  {
    DivMod(a, q);
    if a / q < k {
      GridSteps(a / q, k, q);
    } else if a / q > k {
      GridSteps(k, a / q, q);
    }
  }

  // ---- Bounds on every target ----

  /** The target before the QoS lift. */
  function Unlifted(p: PodInput, s: NodeStats, cfg: Config): int
    requires s.managedRequests > 0 ==> s.managedPods > 0
  {
    ClampAndQuantize(Raw(p.request, s, cfg), p.request, s.allocatable, PodCap(p), cfg)
  }

  lemma UnliftedBounds(p: PodInput, s: NodeStats, cfg: Config)
    requires s.managedRequests > 0 ==> s.managedPods > 0
    requires p.request >= 0
    ensures p.request <= Unlifted(p, s, cfg) <= Ceiling(p.request, s.allocatable, PodCap(p), cfg)
    ensures cfg.quantum > 0 ==> Unlifted(p, s, cfg) == p.request || OnGrid(Unlifted(p, s, cfg), cfg.quantum)
  {
    var hi := Ceiling(p.request, s.allocatable, PodCap(p), cfg);
    QuantizeBounds(Min(Max(Raw(p.request, s, cfg), p.request), hi), p.request, hi, cfg.quantum);
  }

  lemma LiftBounds(p: PodInput, cfg: Config)
    requires p.request >= 0 && p.aboveRequest
    ensures p.request < Lift(p, p.request, cfg) <= p.request + Max(cfg.quantum, 1)
    ensures p.limitRangeCap > p.request ==> Lift(p, p.request, cfg) <= p.limitRangeCap
    ensures p.limitRangeCap <= p.request ==> OnGrid(Lift(p, p.request, cfg), Max(cfg.quantum, 1))
  {
    var q := Max(cfg.quantum, 1);
    DivMod(p.request, q);
    var k := p.request / q + 1;
    assert k * q == (p.request / q) * q + q;
    assert TruncDiv(p.request, q) + 1 == k;
  }

  /** Every target is at or above the request, strictly where equality would make the pod
      Guaranteed; it is under every cap unless it had to be lifted, and a LimitRange that leaves
      room above the request holds even then. */
  lemma {:induction false} TargetBounds(p: PodInput, s: NodeStats, cfg: Config)
    requires s.managedRequests > 0 ==> s.managedPods > 0
    requires p.request >= 0
    ensures p.request <= Decide(p, s, cfg).target
    ensures p.aboveRequest ==> p.request < Decide(p, s, cfg).target
    ensures p.aboveRequest && Unlifted(p, s, cfg) == p.request ==>
              Decide(p, s, cfg).target <= p.request + Max(cfg.quantum, 1)
    ensures !(p.aboveRequest && Unlifted(p, s, cfg) == p.request) ==>
              Decide(p, s, cfg).target == Unlifted(p, s, cfg) <= Ceiling(p.request, s.allocatable, PodCap(p), cfg)
    ensures p.limitRangeCap > p.request ==> Decide(p, s, cfg).target <= p.limitRangeCap
  {
    UnliftedBounds(p, s, cfg);
    if p.aboveRequest && Unlifted(p, s, cfg) <= p.request {
      LiftBounds(p, cfg);
    }
  }

  // ---- No slack ----

  /** With no slack a target is the request, rounded to the grid: within half a quantum above it,
      and equal to it exactly when the request rounds down or the next grid point is over a cap. */
  lemma {:induction false} NoSlackTarget(p: PodInput, s: NodeStats, cfg: Config)
    requires s.managedRequests > 0 ==> s.managedPods > 0
    requires p.request >= 0 && !p.aboveRequest
    requires s.slack <= 0 || s.managedRequests <= 0
    ensures p.request <= Decide(p, s, cfg).target
    ensures cfg.quantum > 0 ==> 2 * (Decide(p, s, cfg).target - p.request) <= cfg.quantum
    ensures Decide(p, s, cfg).target == p.request <==>
      || cfg.quantum <= 0
      || p.request % cfg.quantum < cfg.quantum - cfg.quantum / 2
      || p.request - p.request % cfg.quantum + cfg.quantum > Ceiling(p.request, s.allocatable, PodCap(p), cfg)
  {
    QuantizeRequest(p.request, Ceiling(p.request, s.allocatable, PodCap(p), cfg), cfg.quantum);
  }

  /** The design promises limit = request without slack. Off the grid the code rounds up. */
  lemma {:induction false} NoSlackRoundsUp()
    ensures var p := PodInput(PodKey("ns", "p"), 106, 0, 0, true, false, 0, 0, false);
            var cfg := Config(1000, 10.0, 0.10, 0.05, 10);
            var s := Stats(200, [p, p.(key := PodKey("ns", "q"))]);
            s.slack == 0 && Decide(p, s, cfg).target == 110
  {
    var p := PodInput(PodKey("ns", "p"), 106, 0, 0, true, false, 0, 0, false);
    var q := p.(key := PodKey("ns", "q"));
    var cfg := Config(1000, 10.0, 0.10, 0.05, 10);
    assert [p, q][..1] == [p] && [p][..0] == [];
    assert TotalBooked([p, q]) == TotalBooked([p]) + 106;
    assert BasisCount([p, q]) == BasisCount([p]) + 1;
    var s := Stats(200, [p, q]);
    assert Ceiling(106, 200, 0, cfg) == 200;
    QuantizeRequest(106, 200, 10);
  }
}
