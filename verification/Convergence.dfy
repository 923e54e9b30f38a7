/** A node left alone settles: with inputs fixed, patches accepted and a token bucket that admits at
    least one a pass, every pass leaves fewer pods to patch, until none is left
    (`internal/controller/node_controller.go`, `internal/policy/policy.go`). */
module Convergence {
  import opened LimitRange
  import opened Policy
  import opened PodInputs
  import opened ReconcilePass
  import opened BackoffRuns
  import opened NodeRun
  import opened Sets
  import opened Sums

  // ---- A pass that nothing disturbs ----

  /** No window holds a pod, no verdict opens one, and everything the pass asks for is there. */
  ghost predicate Undisturbed(o: Observation, b: Backoff) {
    && !o.infeasible
    && (o.view.key in b ==> o.verdictAt > b[o.view.key])
    && o.view.namespaceLookup != LookupFailed && o.view.limitRanges.Some?
  }

  lemma UndisturbedIsCanonical(o: Observation, b: Backoff, period: Time, past: Past)
    requires Undisturbed(o, b)
    ensures JudgePod(o, b, period, past).judgement == if o.view.terminal then Skipped else Judged(InputOf(o.view, past))
  {
  }

  /** The pods listed before it leave a pod's window alone. */
  lemma NextIsCanonical(front: seq<Observation>, o: Observation, b: Backoff, period: Time, past: Past)
    requires Undisturbed(o, b) && forall i :: 0 <= i < |front| ==> front[i].view.key != o.view.key
    ensures var before := BuildInputs(front, b, period, past).backoff;
      JudgePod(o, before, period, past).judgement == if o.view.terminal then Skipped else Judged(InputOf(o.view, past))
  {
    OthersBuilt(front, 0, b, period, past, o.view.key);
    UndisturbedIsCanonical(o, BuildInputs(front, b, period, past).backoff, period, past);
  }

  ghost predicate IsCanonicalBuild(os: seq<Observation>, b: Backoff, period: Time, past: Past) {
    var built := BuildInputs(os, b, period, past);
    !built.failed && built.inputs == Canonical(ViewsOf(os), past)
  }

  lemma BuildOneMore(front: seq<Observation>, o: Observation, b: Backoff, period: Time, past: Past)
    requires Undisturbed(o, b) && forall i :: 0 <= i < |front| ==> front[i].view.key != o.view.key
    requires IsCanonicalBuild(front, b, period, past)
    ensures IsCanonicalBuild(front + [o], b, period, past)
  {
    NextIsCanonical(front, o, b, period, past);
    assert (front + [o])[..|front|] == front;
    assert ViewsOf(front + [o])[..|front|] == ViewsOf(front);
  }

  lemma {:induction false} UndisturbedBuild(os: seq<Observation>, b: Backoff, period: Time, past: Past)
    requires DistinctKeys(os)
    requires forall i {:trigger Undisturbed(os[i], b)} :: 0 <= i < |os| ==> Undisturbed(os[i], b)
    ensures IsCanonicalBuild(os, b, period, past)
  {
    if os != [] {
      var front, o := os[..|os| - 1], os[|os| - 1];
      assert Undisturbed(o, b);
      UndisturbedBuild(front, b, period, past);
      BuildOneMore(front, o, b, period, past);
      assert os == front + [o];
    }
  }

  /** The first pod to patch is within the bucket's budget, and whatever is sent is accepted. */
  ghost predicate Admits(ds: seq<Decision>, attempts: seq<Attempt>) {
    && (forall i :: 0 <= i < |attempts| ==> attempts[i].outcome == Accepted)
    && (forall i :: 0 <= i < |ds| && ds[i].apply && (forall j :: 0 <= j < i ==> !ds[j].apply) ==>
          AttemptAt(attempts, i).allowed)
  }

  ghost predicate Quiet(p: Pass, b: Backoff, period: Time, past: Past) {
    && !p.dryRun && DistinctKeys(p.os)
    && (forall i {:trigger Undisturbed(p.os[i], b)} :: 0 <= i < |p.os| ==> Undisturbed(p.os[i], b))
    && Admits(RunPass(p, b, period, past).decisions, p.attempts)
  }

  // ---- Something is patched ----

  lemma {:induction false} NothingBefore(ds: seq<Decision>, attempts: seq<Attempt>, b: Backoff, period: Time)
    requires forall i :: 0 <= i < |ds| ==> !ds[i].apply
    ensures ApplyAll(ds, attempts, b, false, period) == Applied(b, [], {}, false, false, false)
  {
    if ds != [] {
      NothingBefore(ds[..|ds| - 1], attempts, b, period);
    }
  }

  lemma {:induction false} AcceptedStays(ds: seq<Decision>, attempts: seq<Attempt>, b: Backoff, period: Time, n: nat)
    requires n <= |ds|
    ensures ApplyAll(ds[..n], attempts, b, false, period).accepted <= ApplyAll(ds, attempts, b, false, period).accepted
  {
    if n == |ds| {
      assert ds[..n] == ds;
    } else {
      var last := |ds| - 1;
      AcceptedStays(ds[..last], attempts, b, period, n);
      assert ds[..last][..n] == ds[..n];
    }
  }

  lemma FirstWanted(ds: seq<Decision>, i: nat) returns (first: nat)
    requires i < |ds| && ds[i].apply
    ensures first <= i && ds[first].apply && forall j :: 0 <= j < first ==> !ds[j].apply
  {
    first := 0;
    while !ds[first].apply
      invariant first <= i && forall j :: 0 <= j < first ==> !ds[j].apply
      decreases i - first
    {
      first := first + 1;
    }
  }

  lemma FirstIsAccepted(ds: seq<Decision>, attempts: seq<Attempt>, b: Backoff, period: Time, i: nat)
    returns (first: nat)
    requires Admits(ds, attempts) && i < |ds| && ds[i].apply
    ensures first < |ds| && ds[first].apply && ds[first].key in ApplyAll(ds, attempts, b, false, period).accepted
  {
    first := FirstWanted(ds, i);
    NothingBefore(ds[..first], attempts, b, period);
    assert ds[..first + 1][..first] == ds[..first];
    AcceptedStays(ds, attempts, b, period, first + 1);
  }

  // ---- Fewer pods left to patch ----

  /** The places of the pods that want a patch. */
  function Pending(views: seq<PodView>, s: NodeStats, cfg: Config, past: Past): set<int>
    requires s.managedRequests > 0 ==> s.managedPods > 0
  {
    set i | 0 <= i < |views| && Wants(views[i], s, cfg, past)
  }

  lemma PendingNeverGrows(views: seq<PodView>, next: seq<PodView>, s: NodeStats, cfg: Config, past: Past)
    requires s.managedRequests > 0 ==> s.managedPods > 0
    requires SamePods(views, next, s, cfg, past)
    ensures Pending(next, s, cfg, past) <= Pending(views, s, cfg, past)
  {
    forall i | i in Pending(next, s, cfg, past) ensures i in Pending(views, s, cfg, past) {
      assert SamePod(views[i], next[i], s, cfg, past);
    }
  }

  /** In a quiet pass every pod that wants a patch has a decision that says so. */
  lemma WantsAreDecided(p: Pass, b: Backoff, period: Time, past: Past, s: NodeStats, v: PodView) returns (i: nat)
    requires Quiet(p, b, period, past) && s == NodeStatsOf(p.allocatable, ViewsOf(p.os), past)
    requires v in ViewsOf(p.os) && Wants(v, s, p.cfg, past)
    ensures var ds := RunPass(p, b, period, past).decisions; i < |ds| && ds[i].apply
  {
    var r := RunPass(p, b, period, past);
    UndisturbedBuild(p.os, b, period, past);
    var d := DecisionFor(v, s, p.cfg, past);
    CanonicalAreViews(ViewsOf(p.os), past, InputOf(v, past));
    DecisionsCover(r.built.inputs, r.stats, p.cfg, d);
    i :| 0 <= i < |r.decisions| && r.decisions[i] == d;
  }

  /** A pass gives no pod a wish for a patch, and an accepted patch ends one. */
  lemma PassNeverAddsPending(views: seq<PodView>, accepted: set<PodKey>, s: NodeStats, cfg: Config, past: Past,
                             next: seq<PodView>)
    requires s.managedRequests > 0 ==> s.managedPods > 0
    requires AfterPass(views, accepted, s, cfg, past, next)
    ensures Pending(next, s, cfg, past) <= Pending(views, s, cfg, past)
    ensures forall i :: i in Pending(views, s, cfg, past) && views[i].key in accepted ==>
      i !in Pending(next, s, cfg, past)
  {
    PassKeepsNode(views, accepted, s, cfg, past, next);
    PendingNeverGrows(views, next, s, cfg, past);
  }

  /** Where some pod wants a patch, a quiet pass patches some pod that does. */
  lemma SomethingIsPatched(p: Pass, b: Backoff, period: Time, past: Past, s: NodeStats, v: PodView) returns (i: nat)
    requires Quiet(p, b, period, past) && s == NodeStatsOf(p.allocatable, ViewsOf(p.os), past)
    requires v in ViewsOf(p.os) && Wants(v, s, p.cfg, past)
    ensures i < |ViewsOf(p.os)| && Wants(ViewsOf(p.os)[i], s, p.cfg, past)
    ensures ViewsOf(p.os)[i].key in RunPass(p, b, period, past).applied.accepted
  {
    var r := RunPass(p, b, period, past);
    UndisturbedBuild(p.os, b, period, past);
    var k := WantsAreDecided(p, b, period, past, s, v);
    var first := FirstIsAccepted(r.decisions, p.attempts, r.built.backoff, period, k);
    i := DecidedView(p, b, period, past, s, r.decisions[first]);
  }

  lemma DecidedView(p: Pass, b: Backoff, period: Time, past: Past, s: NodeStats, d: Decision) returns (i: nat)
    requires !RunPass(p, b, period, past).built.failed && s == NodeStatsOf(p.allocatable, ViewsOf(p.os), past)
    requires d in RunPass(p, b, period, past).decisions && d.apply
    ensures i < |ViewsOf(p.os)| && ViewsOf(p.os)[i].key == d.key && Wants(ViewsOf(p.os)[i], s, p.cfg, past)
  {
    var views := ViewsOf(p.os);
    DecisionsAreWindowFree(p, b, period, past, d);
    var v: PodView :| v in views && SharesSlack(v) && v.key == d.key && d == DecisionFor(v, s, p.cfg, past);
    i :| 0 <= i < |views| && views[i] == v;
  }

  /** Where some pod wants a patch, a quiet pass has one accepted from a pod that does. */
  lemma PendingIsPatched(p: Pass, b: Backoff, period: Time, past: Past, s: NodeStats) returns (i: nat)
    requires Quiet(p, b, period, past) && s == NodeStatsOf(p.allocatable, ViewsOf(p.os), past)
    requires Pending(ViewsOf(p.os), s, p.cfg, past) != {}
    ensures i in Pending(ViewsOf(p.os), s, p.cfg, past)
    ensures ViewsOf(p.os)[i].key in RunPass(p, b, period, past).applied.accepted
  {
    var k :| k in Pending(ViewsOf(p.os), s, p.cfg, past);
    i := SomethingIsPatched(p, b, period, past, s, ViewsOf(p.os)[k]);
  }

  ghost predicate IsQuietPass(p: Pass, b: Backoff, views: seq<PodView>, accepted: set<PodKey>, allocatable: int,
                              cfg: Config, period: Time, past: Past)
  {
    && p.allocatable == allocatable && p.cfg == cfg && ViewsOf(p.os) == views
    && Quiet(p, b, period, past) && RunPass(p, b, period, past).applied.accepted == accepted
  }

  /** A quiet pass with something to patch leaves less to patch. */
  lemma QuietPassMakesProgress(p: Pass, b: Backoff, views: seq<PodView>, accepted: set<PodKey>, allocatable: int,
                               cfg: Config, period: Time, past: Past, s: NodeStats, next: seq<PodView>)
    requires IsQuietPass(p, b, views, accepted, allocatable, cfg, period, past)
    requires s == NodeStatsOf(allocatable, views, past) && AfterPass(views, accepted, s, cfg, past, next)
    ensures |Pending(next, s, cfg, past)| <= Max(0, |Pending(views, s, cfg, past)| - 1)
  {
    PassNeverAddsPending(views, accepted, s, cfg, past, next);
    if Pending(views, s, cfg, past) != {} {
      var i := PendingIsPatched(p, b, period, past, s);
      SmallerSet(Pending(next, s, cfg, past), Pending(views, s, cfg, past));
    }
  }

  // ---- Runs of quiet passes ----

  /** A run in which every pass is quiet and what it had accepted is what the node shows next. */
  ghost predicate IsQuietRun(passes: seq<Pass>, maps: seq<Backoff>, nodes: seq<seq<PodView>>,
                             accepted: seq<set<PodKey>>, allocatable: int, cfg: Config, period: Time, past: Past)
  {
    && IsRun(nodes, accepted, allocatable, cfg, past) && |passes| == |maps| == |accepted|
    && forall i {:trigger passes[i]} :: 0 <= i < |passes| ==>
        IsQuietPass(passes[i], maps[i], nodes[i], accepted[i], allocatable, cfg, period, past)
  }

  lemma QuietAt(passes: seq<Pass>, maps: seq<Backoff>, nodes: seq<seq<PodView>>, accepted: seq<set<PodKey>>,
                allocatable: int, cfg: Config, period: Time, past: Past, i: nat)
    requires IsQuietRun(passes, maps, nodes, accepted, allocatable, cfg, period, past) && i < |passes|
    ensures IsQuietPass(passes[i], maps[i], nodes[i], accepted[i], allocatable, cfg, period, past)
    ensures AfterPass(nodes[i], accepted[i], NodeStatsOf(allocatable, nodes[i], past), cfg, past, nodes[i + 1])
  {
    var p, a := passes[i], accepted[i];
  }

  lemma QuietStep(passes: seq<Pass>, maps: seq<Backoff>, nodes: seq<seq<PodView>>, accepted: seq<set<PodKey>>,
                  allocatable: int, cfg: Config, period: Time, past: Past, s: NodeStats, i: nat)
    requires IsQuietRun(passes, maps, nodes, accepted, allocatable, cfg, period, past) && i < |passes|
    requires s == NodeStatsOf(allocatable, nodes[0], past)
    ensures |Pending(nodes[i + 1], s, cfg, past)| <= Max(0, |Pending(nodes[i], s, cfg, past)| - 1)
  {
    RunKeepsStats(nodes, accepted, allocatable, cfg, past, i);
    QuietAt(passes, maps, nodes, accepted, allocatable, cfg, period, past, i);
    QuietPassMakesProgress(passes[i], maps[i], nodes[i], accepted[i], allocatable, cfg, period, past, s, nodes[i + 1]);
  }

  lemma {:induction false} CountsDown(left: seq<int>, n: nat)
    requires n < |left| && forall i :: 0 <= i < |left| - 1 ==> left[i + 1] <= Max(0, left[i] - 1)
    ensures left[n] <= Max(0, left[0] - n)
  {
    if n > 0 {
      CountsDown(left, n - 1);
    }
  }

  /** After n quiet passes at least n fewer pods are left to patch, down to none. */
  lemma QuietRunConverges(passes: seq<Pass>, maps: seq<Backoff>, nodes: seq<seq<PodView>>, accepted: seq<set<PodKey>>,
                          allocatable: int, cfg: Config, period: Time, past: Past, s: NodeStats, n: nat)
    requires IsQuietRun(passes, maps, nodes, accepted, allocatable, cfg, period, past) && n <= |passes|
    requires s == NodeStatsOf(allocatable, nodes[0], past)
    ensures |Pending(nodes[n], s, cfg, past)| <= Max(0, |Pending(nodes[0], s, cfg, past)| - n)
  {
    var left := seq(|nodes|, i requires 0 <= i < |nodes| => |Pending(nodes[i], s, cfg, past)|);
    forall i | 0 <= i < |left| - 1 ensures left[i + 1] <= Max(0, left[i] - 1) {
      QuietStep(passes, maps, nodes, accepted, allocatable, cfg, period, past, s, i);
    }
    CountsDown(left, n);
  }

  /** At its target, or so near it that a patch is not worth it: within the grow band below it or the
      shrink band above it. */
  ghost predicate AtRest(current: int, target: int, cfg: Config) {
    || current == target
    || (&& current > 0
        && (current < target ==> (target - current) as real < cfg.deadbandGrow * current as real)
        && (target < current ==> (current - target) as real < cfg.deadbandShrink * current as real))
  }

  lemma RestIsNotWorthApplying(target: int, current: int, cfg: Config)
    requires !WorthApplying(target, current, cfg)
    ensures AtRest(current, target, cfg)
  {
    if current != target {
      var c := current as real;
      if current < target {
        BelowRatio((target - current) as real, c, cfg.deadbandGrow);
      } else {
        BelowRatio((current - target) as real, c, cfg.deadbandShrink);
      }
    }
  }

  lemma BelowRatio(x: real, d: real, band: real)
    requires d > 0.0
    ensures x / d < band ==> x < band * d
  {
    if x / d < band {
      RealScaleLess(d, x / d, band);
      assert x / d * d == x;
    }
  }

  /** However many pods start out wrong, that many quiet passes bring every managed pod's limit to
      rest at its target. */
  lemma NodeComesToRest(passes: seq<Pass>, maps: seq<Backoff>, nodes: seq<seq<PodView>>, accepted: seq<set<PodKey>>,
                        allocatable: int, cfg: Config, period: Time, past: Past, n: nat, v: PodView)
    requires IsQuietRun(passes, maps, nodes, accepted, allocatable, cfg, period, past)
    requires |Pending(nodes[0], NodeStatsOf(allocatable, nodes[0], past), cfg, past)| <= n <= |passes|
    requires v in nodes[n] && SharesSlack(v)
    ensures var s := NodeStatsOf(allocatable, nodes[0], past);
      AtRest(InputOf(v, past).currentLimit, DecisionFor(v, s, cfg, past).target, cfg)
  {
    var s := NodeStatsOf(allocatable, nodes[0], past);
    QuietRunConverges(passes, maps, nodes, accepted, allocatable, cfg, period, past, s, n);
    var i :| 0 <= i < |nodes[n]| && nodes[n][i] == v;
    assert i !in Pending(nodes[n], s, cfg, past);
    RestIsNotWorthApplying(DecisionFor(v, s, cfg, past).target, InputOf(v, past).currentLimit, cfg);
  }
}
