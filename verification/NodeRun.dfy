/** A node over whole runs: backoff windows move nobody else's target, an arrival raises none, and a
    settled pod is never patched again (`internal/controller/node_controller.go`,
    `internal/policy/policy.go`). */
module NodeRun {
  import opened LimitRange
  import opened Policy
  import opened PodInputs
  import opened ReconcilePass
  import PolicyBounds
  import PolicyMonotone

  function ViewsOf(os: seq<Observation>): (vs: seq<PodView>)
    ensures |vs| == |os| && forall i :: 0 <= i < |os| ==> vs[i] == os[i].view
  {
    seq(|os|, i requires 0 <= i < |os| => os[i].view)
  }

  /** The inputs of a pass no window touches. */
  function Canonical(views: seq<PodView>, past: Past): seq<PodInput> {
    if views == [] then []
    else Canonical(views[..|views| - 1], past) + InputsOf(views[|views| - 1], past)
  }

  function InputsOf(v: PodView, past: Past): seq<PodInput> {
    if v.terminal then [] else [InputOf(v, past)]
  }

  // ---- Windows change who gets a decision, and nothing else ----

  lemma JudgeKeepsBasis(o: Observation, b: Backoff, period: Time, past: Past)
    ensures var j := JudgePod(o, b, period, past).judgement;
      && (j.Skipped? <==> o.view.terminal)
      && (j.Judged? ==> SameBasis(j.input, InputOf(o.view, past)))
      && (j.Judged? && j.input.managed ==> SharesSlack(o.view) && j.input == InputOf(o.view, past))
  {
  }

  /** Same bases throughout, and a managed input is the one no window touches. */
  ghost predicate ReadAs(inputs: seq<PodInput>, canonical: seq<PodInput>) {
    SameBases(inputs, canonical) && forall i :: 0 <= i < |inputs| && inputs[i].managed ==> inputs[i] == canonical[i]
  }

  lemma ReadAsSnoc(inputs: seq<PodInput>, canonical: seq<PodInput>, p: PodInput, q: PodInput)
    requires ReadAs(inputs, canonical) && SameBasis(p, q) && (p.managed ==> p == q)
    ensures ReadAs(inputs + [p], canonical + [q])
  {
    SameBasesSnoc(inputs, canonical, p, q);
  }

  lemma {:induction false} BuildKeepsBasis(os: seq<Observation>, b: Backoff, period: Time, past: Past)
    requires !BuildInputs(os, b, period, past).failed
    ensures ReadAs(BuildInputs(os, b, period, past).inputs, Canonical(ViewsOf(os), past))
  {
    if os != [] {
      var front, o := os[..|os| - 1], os[|os| - 1];
      var before := BuildInputs(front, b, period, past);
      BuildKeepsBasis(front, b, period, past);
      JudgeKeepsBasis(o, before.backoff, period, past);
      assert ViewsOf(os)[..|os| - 1] == ViewsOf(front);
      if !o.view.terminal {
        ReadAsSnoc(before.inputs, Canonical(ViewsOf(front), past),
                   JudgePod(o, before.backoff, period, past).judgement.input, InputOf(o.view, past));
      }
    }
  }

  function NodeStatsOf(allocatable: int, views: seq<PodView>, past: Past): (s: NodeStats)
    ensures s.managedRequests > 0 ==> s.managedPods > 0
  {
    Stats(allocatable, Canonical(views, past))
  }

  /** Slack, the distribution basis and its count are what the pods make them, whichever windows are
      open, ending or about to open. */
  lemma WindowsLeaveStatsAlone(p: Pass, b: Backoff, period: Time, past: Past)
    requires !RunPass(p, b, period, past).built.failed
    ensures RunPass(p, b, period, past).stats == NodeStatsOf(p.allocatable, ViewsOf(p.os), past)
  {
    BuildKeepsBasis(p.os, b, period, past);
    StatsReadBasis(p.allocatable, BuildInputs(p.os, b, period, past).inputs, Canonical(ViewsOf(p.os), past));
  }

  /** What the node decides for a pod that no window holds. */
  function DecisionFor(v: PodView, s: NodeStats, cfg: Config, past: Past): Decision
    requires s.managedRequests > 0 ==> s.managedPods > 0
  {
    Decide(InputOf(v, past), s, cfg)
  }

  predicate Wants(v: PodView, s: NodeStats, cfg: Config, past: Past)
    requires s.managedRequests > 0 ==> s.managedPods > 0
  {
    SharesSlack(v) && DecisionFor(v, s, cfg, past).apply
  }

  lemma {:induction false} CanonicalAreViews(views: seq<PodView>, past: Past, input: PodInput)
    ensures input in Canonical(views, past) <==> exists v :: v in views && !v.terminal && input == InputOf(v, past)
  {
    if views != [] {
      var front, last := views[..|views| - 1], views[|views| - 1];
      assert views == front + [last];
      CanonicalAreViews(front, past, input);
    }
  }

  /** Every decision of a pass is the one its pod would get with no window open anywhere. */
  lemma DecisionsAreWindowFree(p: Pass, b: Backoff, period: Time, past: Past, d: Decision)
    requires !RunPass(p, b, period, past).built.failed && d in RunPass(p, b, period, past).decisions
    ensures exists v :: v in ViewsOf(p.os) && SharesSlack(v) && v.key == d.key
                        && d == DecisionFor(v, NodeStatsOf(p.allocatable, ViewsOf(p.os), past), p.cfg, past)
  {
    var r, views := RunPass(p, b, period, past), ViewsOf(p.os);
    var canonical := Canonical(views, past);
    WindowsLeaveStatsAlone(p, b, period, past);
    BuildKeepsBasis(p.os, b, period, past);
    DecisionsCover(r.built.inputs, r.stats, p.cfg, d);
    var input :| input in r.built.inputs && input.managed && d == Decide(input, r.stats, p.cfg);
    var i :| 0 <= i < |r.built.inputs| && r.built.inputs[i] == input;
    assert canonical[i] == input && input in canonical;
    CanonicalAreViews(views, past, input);
    var v :| v in views && !v.terminal && input == InputOf(v, past);
    assert v in views && SharesSlack(v) && v.key == d.key;
  }

  // ---- A pod arrives ----

  function WithView(views: seq<PodView>, at: nat, newcomer: PodView): seq<PodView>
    requires at <= |views|
  {
    views[..at] + [newcomer] + views[at..]
  }

  lemma {:induction false} CanonicalSnoc(views: seq<PodView>, v: PodView, past: Past)
    ensures Canonical(views + [v], past) == Canonical(views, past) + InputsOf(v, past)
  {
    assert (views + [v])[..|views|] == views;
  }

  lemma WithPodBefore(pods: seq<PodInput>, rest: seq<PodInput>, at: nat, newcomer: PodInput)
    requires at <= |pods|
    ensures PolicyMonotone.WithPod(pods + rest, at, newcomer) == PolicyMonotone.WithPod(pods, at, newcomer) + rest
  {
  }

  lemma WithViewBefore(views: seq<PodView>, last: PodView, at: nat, newcomer: PodView)
    requires at <= |views|
    ensures WithView(views + [last], at, newcomer) == WithView(views, at, newcomer) + [last]
  {
  }

  ghost predicate IsWithInputs(after: seq<PodInput>, inputs: seq<PodInput>, place: nat, newcomer: PodView, past: Past) {
    && place <= |inputs|
    && after == if newcomer.terminal then inputs
                else PolicyMonotone.WithPod(inputs, place, InputOf(newcomer, past))
  }

  lemma {:induction false} CanonicalWithView(views: seq<PodView>, at: nat, newcomer: PodView, past: Past)
    returns (place: nat)
    requires at <= |views|
    ensures IsWithInputs(Canonical(WithView(views, at, newcomer), past), Canonical(views, past), place, newcomer, past)
    decreases |views|
  {
    if at == |views| {
      place := |Canonical(views, past)|;
      assert WithView(views, at, newcomer) == views + [newcomer];
      CanonicalSnoc(views, newcomer, past);
      assert Canonical(views, past)[place..] == [];
    } else {
      var front, last := views[..|views| - 1], views[|views| - 1];
      assert views == front + [last];
      place := CanonicalWithView(front, at, newcomer, past);
      OneMoreView(front, at, newcomer, last, past, place);
    }
  }

  lemma OneMoreView(views: seq<PodView>, at: nat, newcomer: PodView, last: PodView, past: Past, place: nat)
    requires at <= |views|
    requires IsWithInputs(Canonical(WithView(views, at, newcomer), past), Canonical(views, past), place, newcomer, past)
    ensures IsWithInputs(Canonical(WithView(views + [last], at, newcomer), past),
                         Canonical(views + [last], past), place, newcomer, past)
  {
    CanonicalSnoc(views, last, past);
    CanonicalSnoc(WithView(views, at, newcomer), last, past);
    WithViewBefore(views, last, at, newcomer);
    WithPodBefore(Canonical(views, past), InputsOf(last, past), place, InputOf(newcomer, past));
  }

  /** A pod bound to the node, of whatever kind, never raises the target of one that shares the node's
      slack: eligibility asks every such pod for a request, so the basis is never empty of requests. */
  lemma {:induction false} ArrivalNeverRaises(allocatable: int, views: seq<PodView>, at: nat, newcomer: PodView,
                                              v: PodView, cfg: Config, past: Past)
    requires at <= |views| && v in views && SharesSlack(v)
    requires forall x :: x in views ==> Request(x) >= 0
    requires Request(newcomer) >= 0 && newcomer.booked >= 0
    ensures var before := NodeStatsOf(allocatable, views, past);
            var after := NodeStatsOf(allocatable, WithView(views, at, newcomer), past);
            DecisionFor(v, after, cfg, past).target <= DecisionFor(v, before, cfg, past).target
  {
    BasisRequestsSomething(views, v, past);
    InputsRequest(v, past);
    var place := CanonicalWithView(views, at, newcomer, past);
    if !newcomer.terminal {
      InputsRequest(newcomer, past);
      PolicyMonotone.NewcomerNeverRaises(allocatable, Canonical(views, past), place, InputOf(newcomer, past),
                                         InputOf(v, past), cfg);
    }
  }

  lemma InputsRequest(v: PodView, past: Past)
    ensures var p := InputOf(v, past);
      && p.request == Request(v) && p.request + p.bookedDelta == v.booked
      && (SharesSlack(v) ==> InBasis(p) && p.request > 0)
  {
  }

  lemma {:induction false} BasisRequestsSomething(views: seq<PodView>, v: PodView, past: Past)
    requires v in views && SharesSlack(v) && forall x :: x in views ==> Request(x) >= 0
    ensures BasisRequests(Canonical(views, past)) > 0
  {
    CanonicalAreViews(views, past, InputOf(v, past));
    InputsRequest(v, past);
    forall x | x in Canonical(views, past) ensures x.request >= 0 {
      CanonicalAreViews(views, past, x);
    }
    PolicyMonotone.BasisIsPositive(Canonical(views, past), InputOf(v, past));
  }

  // ---- What a pass patches ----

  ghost predicate AppliesTo(ds: seq<Decision>, key: PodKey) {
    exists i :: 0 <= i < |ds| && ds[i].key == key && ds[i].apply
  }

  lemma AppliesToLonger(ds: seq<Decision>, n: nat, key: PodKey)
    requires n <= |ds| && AppliesTo(ds[..n], key)
    ensures AppliesTo(ds, key)
  {
    var i :| 0 <= i < n && ds[..n][i].key == key && ds[..n][i].apply;
    assert ds[i].key == key && ds[i].apply;
  }

  lemma {:induction false} PatchedWereDecided(ds: seq<Decision>, attempts: seq<Attempt>, b: Backoff, dryRun: bool,
                                              period: Time, key: PodKey)
    requires var a := ApplyAll(ds, attempts, b, dryRun, period);
             key in a.accepted || exists e :: e in a.events && e.key == key
    ensures AppliesTo(ds, key)
  {
    if ds != [] {
      var n := |ds| - 1;
      var before := ApplyAll(ds[..n], attempts, b, dryRun, period);
      if key in before.accepted || exists e :: e in before.events && e.key == key {
        PatchedWereDecided(ds[..n], attempts, b, dryRun, period, key);
        AppliesToLonger(ds, n, key);
      } else {
        assert ds[n].key == key && ds[n].apply;
      }
    }
  }

  /** Only a pod whose window-free decision asks for it is patched. */
  lemma PatchedPodsWant(p: Pass, b: Backoff, period: Time, past: Past, key: PodKey)
    requires !RunPass(p, b, period, past).built.failed
    requires var a := RunPass(p, b, period, past).applied;
             key in a.accepted || exists e :: e in a.events && e.key == key
    ensures exists v :: v in ViewsOf(p.os) && v.key == key
                        && Wants(v, NodeStatsOf(p.allocatable, ViewsOf(p.os), past), p.cfg, past)
  {
    var r := RunPass(p, b, period, past);
    PatchedWereDecided(r.decisions, p.attempts, r.built.backoff, p.dryRun, period, key);
    var i :| 0 <= i < |r.decisions| && r.decisions[i].key == key && r.decisions[i].apply;
    DecisionsAreWindowFree(p, b, period, past, r.decisions[i]);
  }

  // ---- The node after a pass ----

  ghost predicate ViewsValid(views: seq<PodView>) {
    && (forall i, j :: 0 <= i < j < |views| ==> views[i].key != views[j].key)
    && (forall i {:trigger ViewValid(views[i])} :: 0 <= i < |views| && SharesSlack(views[i]) ==> ViewValid(views[i]))
  }

  /** An accepted patch has written its target; nothing else about the pod has changed. */
  ghost predicate PodAfterPass(v: PodView, accepted: set<PodKey>, s: NodeStats, cfg: Config, past: Past, after: PodView)
    requires s.managedRequests > 0 ==> s.managedPods > 0
    requires SharesSlack(v) ==> ViewValid(v)
  {
    if v.key in accepted && SharesSlack(v)
    then var target := DecisionFor(v, s, cfg, past).target; target >= 0 && IsResized(v, target, after)
    else after == v
  }

  ghost predicate AfterPass(views: seq<PodView>, accepted: set<PodKey>, s: NodeStats, cfg: Config, past: Past,
                            next: seq<PodView>)
    requires s.managedRequests > 0 ==> s.managedPods > 0
  {
    && ViewsValid(views) && |next| == |views|
    && forall i {:trigger PodAfterPass(views[i], accepted, s, cfg, past, next[i])} :: 0 <= i < |views| ==>
         PodAfterPass(views[i], accepted, s, cfg, past, next[i])
  }

  lemma ResizedKeepsTarget(v: PodView, after: PodView, s: NodeStats, cfg: Config, past: Past)
    requires s.managedRequests > 0 ==> s.managedPods > 0
    requires ViewValid(v) && SharesSlack(v)
    requires var target := DecisionFor(v, s, cfg, past).target; target >= 0 && IsResized(v, target, after)
    ensures after.key == v.key && after.terminal == v.terminal && SharesSlack(after) && ViewValid(after)
    ensures SameBasis(InputOf(after, past), InputOf(v, past))
    ensures DecisionFor(after, s, cfg, past).target == DecisionFor(v, s, cfg, past).target
    ensures !Wants(after, s, cfg, past)
  {
    var target := DecisionFor(v, s, cfg, past).target;
    PolicyBounds.TargetBounds(InputOf(v, past), s, cfg);
    TargetReadsBack(v, target, after, past);
    ResizedIsValid(v, target, after);
    TargetIgnoresLimit(InputOf(v, past), target, s, cfg);
  }

  /** Same key, same basis, same target, and no new wish for a patch. */
  ghost predicate SamePod(v: PodView, after: PodView, s: NodeStats, cfg: Config, past: Past)
    requires s.managedRequests > 0 ==> s.managedPods > 0
  {
    && after.key == v.key && after.terminal == v.terminal && SharesSlack(after) == SharesSlack(v)
    && SameBasis(InputOf(after, past), InputOf(v, past))
    && DecisionFor(after, s, cfg, past).target == DecisionFor(v, s, cfg, past).target
    && (Wants(after, s, cfg, past) ==> Wants(v, s, cfg, past))
  }

  ghost predicate SamePods(views: seq<PodView>, next: seq<PodView>, s: NodeStats, cfg: Config, past: Past)
    requires s.managedRequests > 0 ==> s.managedPods > 0
  {
    && |next| == |views|
    && forall i {:trigger SamePod(views[i], next[i], s, cfg, past)} :: 0 <= i < |views| ==>
         SamePod(views[i], next[i], s, cfg, past)
  }

  ghost predicate SameNode(views: seq<PodView>, next: seq<PodView>, s: NodeStats, cfg: Config, past: Past)
    requires s.managedRequests > 0 ==> s.managedPods > 0
  {
    ViewsValid(next) && SamePods(views, next, s, cfg, past)
  }

  /** All but the last pod are the same, and so is the last. */
  lemma SamePodsFront(views: seq<PodView>, next: seq<PodView>, s: NodeStats, cfg: Config, past: Past)
    requires s.managedRequests > 0 ==> s.managedPods > 0
    requires SamePods(views, next, s, cfg, past) && views != []
    ensures SamePods(views[..|views| - 1], next[..|views| - 1], s, cfg, past)
    ensures SamePod(views[|views| - 1], next[|views| - 1], s, cfg, past)
  {
    var n := |views| - 1;
    forall i | 0 <= i < n ensures SamePod(views[..n][i], next[..n][i], s, cfg, past) {
      assert SamePod(views[i], next[i], s, cfg, past);
    }
    assert SamePod(views[n], next[n], s, cfg, past);
  }

  lemma PodKeepsNode(v: PodView, accepted: set<PodKey>, s: NodeStats, cfg: Config, past: Past, after: PodView)
    requires s.managedRequests > 0 ==> s.managedPods > 0
    requires SharesSlack(v) ==> ViewValid(v)
    requires PodAfterPass(v, accepted, s, cfg, past, after)
    ensures SamePod(v, after, s, cfg, past) && (SharesSlack(after) ==> ViewValid(after))
    ensures v.key in accepted ==> !Wants(after, s, cfg, past)
  {
    if v.key in accepted && SharesSlack(v) {
      ResizedKeepsTarget(v, after, s, cfg, past);
    }
  }

  lemma PassKeepsNode(views: seq<PodView>, accepted: set<PodKey>, s: NodeStats, cfg: Config, past: Past,
                      next: seq<PodView>)
    requires s.managedRequests > 0 ==> s.managedPods > 0
    requires AfterPass(views, accepted, s, cfg, past, next)
    ensures SameNode(views, next, s, cfg, past)
    ensures forall i :: 0 <= i < |views| && views[i].key in accepted ==> !Wants(next[i], s, cfg, past)
  {
    forall i | 0 <= i < |views|
      ensures SamePod(views[i], next[i], s, cfg, past) && next[i].key == views[i].key
      ensures SharesSlack(next[i]) ==> ViewValid(next[i])
      ensures views[i].key in accepted ==> !Wants(next[i], s, cfg, past)
    {
      assert PodAfterPass(views[i], accepted, s, cfg, past, next[i]);
      PodKeepsNode(views[i], accepted, s, cfg, past, next[i]);
    }
  }

  lemma {:induction false} CanonicalKeepsBasis(views: seq<PodView>, next: seq<PodView>, s: NodeStats, cfg: Config,
                                               past: Past)
    requires s.managedRequests > 0 ==> s.managedPods > 0
    requires SamePods(views, next, s, cfg, past)
    ensures SameBases(Canonical(views, past), Canonical(next, past))
  {
    if views != [] {
      var n := |views| - 1;
      SamePodsFront(views, next, s, cfg, past);
      CanonicalKeepsBasis(views[..n], next[..n], s, cfg, past);
      SameBasesSnoc(Canonical(views[..n], past), Canonical(next[..n], past),
                    InputOf(views[n], past), InputOf(next[n], past));
    }
  }

  /** Accepted patches leave the node's aggregates where they were. */
  lemma SameNodeSameStats(allocatable: int, views: seq<PodView>, next: seq<PodView>, s: NodeStats, cfg: Config,
                          past: Past)
    requires s.managedRequests > 0 ==> s.managedPods > 0
    requires SameNode(views, next, s, cfg, past)
    ensures NodeStatsOf(allocatable, next, past) == NodeStatsOf(allocatable, views, past)
  {
    CanonicalKeepsBasis(views, next, s, cfg, past);
    StatsReadBasis(allocatable, Canonical(views, past), Canonical(next, past));
  }

  // ---- Runs on a node nothing else happens to ----

  /** A node through any number of passes in which only windows open and end and patches are answered.
      `nodes[i]` is what the i-th pass lists and `accepted[i]` the pods whose patch it had accepted:
      any of them, by any clock, token bucket and kubelet verdict. */
  ghost predicate IsRun(nodes: seq<seq<PodView>>, accepted: seq<set<PodKey>>, allocatable: int, cfg: Config,
                        past: Past) {
    && |nodes| == |accepted| + 1 && ViewsValid(nodes[0])
    && forall i {:trigger accepted[i]} :: 0 <= i < |accepted| ==>
         AfterPass(nodes[i], accepted[i], NodeStatsOf(allocatable, nodes[i], past), cfg, past, nodes[i + 1])
  }

  lemma SameNodeRefl(views: seq<PodView>, s: NodeStats, cfg: Config, past: Past)
    requires s.managedRequests > 0 ==> s.managedPods > 0
    requires ViewsValid(views)
    ensures SameNode(views, views, s, cfg, past)
  {
  }

  lemma SameNodeTrans(a: seq<PodView>, b: seq<PodView>, c: seq<PodView>, s: NodeStats, cfg: Config, past: Past)
    requires s.managedRequests > 0 ==> s.managedPods > 0
    requires SameNode(a, b, s, cfg, past) && SameNode(b, c, s, cfg, past)
    ensures SameNode(a, c, s, cfg, past)
  {
    forall i | 0 <= i < |a| ensures SamePod(a[i], c[i], s, cfg, past) {
      assert SamePod(a[i], b[i], s, cfg, past) && SamePod(b[i], c[i], s, cfg, past);
    }
  }

  lemma PassAt(nodes: seq<seq<PodView>>, accepted: seq<set<PodKey>>, allocatable: int, cfg: Config, past: Past, i: nat)
    requires IsRun(nodes, accepted, allocatable, cfg, past) && i < |accepted|
    ensures AfterPass(nodes[i], accepted[i], NodeStatsOf(allocatable, nodes[i], past), cfg, past, nodes[i + 1])
  {
    var took := accepted[i];
  }

  lemma OnePassMore(nodes: seq<seq<PodView>>, accepted: seq<set<PodKey>>, allocatable: int, cfg: Config, past: Past,
                    s: NodeStats, i: nat)
    requires IsRun(nodes, accepted, allocatable, cfg, past) && i < |accepted|
    requires s == NodeStatsOf(allocatable, nodes[0], past) && SameNode(nodes[0], nodes[i], s, cfg, past)
    ensures SameNode(nodes[0], nodes[i + 1], s, cfg, past)
  {
    SameNodeSameStats(allocatable, nodes[0], nodes[i], s, cfg, past);
    PassAt(nodes, accepted, allocatable, cfg, past, i);
    PassKeepsNode(nodes[i], accepted[i], s, cfg, past, nodes[i + 1]);
    SameNodeTrans(nodes[0], nodes[i], nodes[i + 1], s, cfg, past);
  }

  lemma {:induction false} RunKeepsPods(nodes: seq<seq<PodView>>, accepted: seq<set<PodKey>>, allocatable: int,
                                        cfg: Config, past: Past, s: NodeStats, n: nat)
    requires IsRun(nodes, accepted, allocatable, cfg, past) && n <= |accepted|
    requires s == NodeStatsOf(allocatable, nodes[0], past)
    ensures SameNode(nodes[0], nodes[n], s, cfg, past)
  {
    if n == 0 {
      SameNodeRefl(nodes[0], s, cfg, past);
    } else {
      RunKeepsPods(nodes, accepted, allocatable, cfg, past, s, n - 1);
      OnePassMore(nodes, accepted, allocatable, cfg, past, s, n - 1);
    }
  }

  /** Pod by pod, a node is at every pass of a run what it was at the first, limits apart. */
  lemma RunKeepsNode(nodes: seq<seq<PodView>>, accepted: seq<set<PodKey>>, allocatable: int, cfg: Config, past: Past,
                     n: nat)
    requires IsRun(nodes, accepted, allocatable, cfg, past) && n <= |accepted|
    ensures SameNode(nodes[0], nodes[n], NodeStatsOf(allocatable, nodes[0], past), cfg, past)
    ensures NodeStatsOf(allocatable, nodes[n], past) == NodeStatsOf(allocatable, nodes[0], past)
  {
    var s := NodeStatsOf(allocatable, nodes[0], past);
    RunKeepsPods(nodes, accepted, allocatable, cfg, past, s, n);
    SameNodeSameStats(allocatable, nodes[0], nodes[n], s, cfg, past);
  }

  lemma RunKeepsStats(nodes: seq<seq<PodView>>, accepted: seq<set<PodKey>>, allocatable: int, cfg: Config, past: Past,
                      n: nat)
    requires IsRun(nodes, accepted, allocatable, cfg, past) && n <= |accepted|
    ensures NodeStatsOf(allocatable, nodes[n], past) == NodeStatsOf(allocatable, nodes[0], past)
  {
    RunKeepsNode(nodes, accepted, allocatable, cfg, past, n);
  }

  /** Whatever opens, ends or is retried, a pass at any point of a run, from any backoff map, computes
      the same slack, the same distribution basis and the same count. */
  lemma StatsStayPut(nodes: seq<seq<PodView>>, accepted: seq<set<PodKey>>, cfg: Config, past: Past, n: nat, p: Pass,
                     b: Backoff, period: Time)
    requires IsRun(nodes, accepted, p.allocatable, cfg, past) && n <= |accepted| && ViewsOf(p.os) == nodes[n]
    requires !RunPass(p, b, period, past).built.failed
    ensures RunPass(p, b, period, past).stats == NodeStatsOf(p.allocatable, nodes[0], past)
  {
    RunKeepsNode(nodes, accepted, p.allocatable, cfg, past, n);
    WindowsLeaveStatsAlone(p, b, period, past);
  }

  /** ... and every pod it decides on gets the target it would have got at the first. */
  lemma TargetsStayPut(nodes: seq<seq<PodView>>, accepted: seq<set<PodKey>>, past: Past, n: nat, p: Pass, b: Backoff,
                       period: Time, d: Decision)
    requires IsRun(nodes, accepted, p.allocatable, p.cfg, past) && n <= |accepted| && ViewsOf(p.os) == nodes[n]
    requires !RunPass(p, b, period, past).built.failed && d in RunPass(p, b, period, past).decisions
    ensures exists i ::
      && 0 <= i < |nodes[0]| && nodes[0][i].key == d.key
      && d.target == DecisionFor(nodes[0][i], NodeStatsOf(p.allocatable, nodes[0], past), p.cfg, past).target
  {
    var s := NodeStatsOf(p.allocatable, nodes[0], past);
    RunKeepsNode(nodes, accepted, p.allocatable, p.cfg, past, n);
    DecisionsAreWindowFree(p, b, period, past, d);
    var v: PodView :| v in nodes[n] && SharesSlack(v) && v.key == d.key && d == DecisionFor(v, s, p.cfg, past);
    var i :| 0 <= i < |nodes[n]| && nodes[n][i] == v;
    assert SamePod(nodes[0][i], nodes[n][i], s, p.cfg, past);
  }

  /** A pod whose window-free decision asks for no patch. */
  ghost predicate Settled(views: seq<PodView>, key: PodKey, s: NodeStats, cfg: Config, past: Past)
    requires s.managedRequests > 0 ==> s.managedPods > 0
  {
    forall i :: 0 <= i < |views| && views[i].key == key ==> !Wants(views[i], s, cfg, past)
  }

  lemma SettledStays(views: seq<PodView>, next: seq<PodView>, key: PodKey, s: NodeStats, cfg: Config, past: Past)
    requires s.managedRequests > 0 ==> s.managedPods > 0
    requires SameNode(views, next, s, cfg, past) && Settled(views, key, s, cfg, past)
    ensures Settled(next, key, s, cfg, past)
  {
    forall i | 0 <= i < |next| && next[i].key == key ensures !Wants(next[i], s, cfg, past) {
      assert SamePod(views[i], next[i], s, cfg, past);
    }
  }

  /** A pod that carries its target, or is within its deadband, is never patched while only windows
      move: not when a neighbour is refused, held, retried or resized. */
  lemma SettledIsNeverPatched(nodes: seq<seq<PodView>>, accepted: seq<set<PodKey>>, past: Past, n: nat, p: Pass,
                              b: Backoff, period: Time, key: PodKey, e: Event)
    requires IsRun(nodes, accepted, p.allocatable, p.cfg, past) && n <= |accepted| && ViewsOf(p.os) == nodes[n]
    requires !RunPass(p, b, period, past).built.failed
    requires Settled(nodes[0], key, NodeStatsOf(p.allocatable, nodes[0], past), p.cfg, past)
    requires e in RunPass(p, b, period, past).applied.events
    ensures e.key != key
  {
    RunKeepsNode(nodes, accepted, p.allocatable, p.cfg, past, n);
    SettledStays(nodes[0], nodes[n], key, NodeStatsOf(p.allocatable, nodes[0], past), p.cfg, past);
    if e.key == key {
      PatchedPodsWant(p, b, period, past, key);
    }
  }
}
