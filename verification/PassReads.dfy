/** What a pass makes of the pods it lists: the node's aggregates, and how each pod is judged
    (`internal/controller/node_controller.go`, `internal/policy/policy.go`). */
module PassReads {
  import opened LimitRange
  import opened Options
  import opened Policy
  import opened PodInputs
  import opened ReconcilePass
  import opened BackoffRuns
  import opened NodeRun
  import opened Sums

  // ---- The node's aggregates, read off the pods ----

  /** What the scheduler has booked for each pod that has not ended. */
  function Bookings(views: seq<PodView>): (s: seq<int>)
    ensures |s| == |views| && forall i :: 0 <= i < |views| ==> s[i] == if views[i].terminal then 0 else views[i].booked
  {
    seq(|views|, i requires 0 <= i < |views| => if views[i].terminal then 0 else views[i].booked)
  }

  /** What each pod that shares the slack requests. */
  function SharedRequests(views: seq<PodView>): (s: seq<int>)
    ensures |s| == |views|
    ensures forall i :: 0 <= i < |views| ==> s[i] == if SharesSlack(views[i]) then Request(views[i]) else 0
  {
    seq(|views|, i requires 0 <= i < |views| => if SharesSlack(views[i]) then Request(views[i]) else 0)
  }

  function Sharers(views: seq<PodView>): set<int> {
    set i | 0 <= i < |views| && SharesSlack(views[i])
  }

  lemma BookingsNext(views: seq<PodView>)
    requires views != []
    ensures var front, last := views[..|views| - 1], views[|views| - 1];
      && Sum(Bookings(views)) == Sum(Bookings(front)) + (if last.terminal then 0 else last.booked)
      && Sum(SharedRequests(views)) == Sum(SharedRequests(front)) + (if SharesSlack(last) then Request(last) else 0)
  {
    var front := views[..|views| - 1];
    assert Bookings(views)[..|front|] == Bookings(front);
    assert SharedRequests(views)[..|front|] == SharedRequests(front);
  }

  lemma SharersNext(views: seq<PodView>)
    requires views != []
    ensures var front, last := views[..|views| - 1], views[|views| - 1];
      |Sharers(views)| == |Sharers(front)| + (if SharesSlack(last) then 1 else 0)
  {
    var front, last := views[..|views| - 1], views[|views| - 1];
    assert Sharers(views) == Sharers(front) + (if SharesSlack(last) then {|front|} else {});
  }

  lemma {:induction false} AggregatesReadViews(views: seq<PodView>, past: Past)
    ensures TotalBooked(Canonical(views, past)) == Sum(Bookings(views))
    ensures BasisRequests(Canonical(views, past)) == Sum(SharedRequests(views))
    ensures BasisCount(Canonical(views, past)) == |Sharers(views)|
  {
    if views == [] {
      assert Sharers(views) == {};
    } else {
      var front, last := views[..|views| - 1], views[|views| - 1];
      AggregatesReadViews(front, past);
      BookingsNext(views);
      SharersNext(views);
      OneMoreInput(Canonical(front, past), last, past);
    }
  }

  lemma OneMoreInput(inputs: seq<PodInput>, v: PodView, past: Past)
    ensures var more := inputs + InputsOf(v, past);
      && TotalBooked(more) == TotalBooked(inputs) + (if v.terminal then 0 else v.booked)
      && BasisRequests(more) == BasisRequests(inputs) + (if SharesSlack(v) then Request(v) else 0)
      && BasisCount(more) == BasisCount(inputs) + (if SharesSlack(v) then 1 else 0)
  {
    if v.terminal {
      assert inputs + [] == inputs;
    } else {
      InputsRequest(v, past);
      assert (inputs + [InputOf(v, past)])[..|inputs|] == inputs;
    }
  }

  /** The aggregates of a node with this much booked on it, shared among `n` pods that request `m`. */
  ghost predicate AreStats(s: NodeStats, allocatable: int, booked: int, m: int, n: int) {
    && s.allocatable == allocatable && s.totalRequests == booked && s.slack == Max(allocatable - booked, 0)
    && s.managedRequests == m && s.managedPods == n
    && s.factor * m as real == m as real + (if m > 0 then s.slack as real else 0.0)
  }

  ghost predicate IsStatsOf(s: NodeStats, allocatable: int, views: seq<PodView>) {
    AreStats(s, allocatable, Sum(Bookings(views)), Sum(SharedRequests(views)), |Sharers(views)|)
  }

  lemma NodeStatsReadViews(allocatable: int, views: seq<PodView>, past: Past)
    ensures IsStatsOf(NodeStatsOf(allocatable, views, past), allocatable, views)
  {
    AggregatesReadViews(views, past);
    StatsAre(allocatable, Canonical(views, past));
  }

  /** Slack is what the node can allocate less what is booked on it, terminal pods apart and never below
      zero; it is shared among the pods that are enrolled, eligible and not another autoscaler's, by their
      requests. The factor is by how much it stretches them. */
  lemma StatsReadViews(p: Pass, b: Backoff, period: Time, past: Past)
    requires !RunPass(p, b, period, past).built.failed
    ensures IsStatsOf(RunPass(p, b, period, past).stats, p.allocatable, ViewsOf(p.os))
  {
    WindowsLeaveStatsAlone(p, b, period, past);
    NodeStatsReadViews(p.allocatable, ViewsOf(p.os), past);
  }

  lemma StatsAre(allocatable: int, pods: seq<PodInput>)
    ensures AreStats(Stats(allocatable, pods), allocatable, TotalBooked(pods), BasisRequests(pods), BasisCount(pods))
  {
    var s := Stats(allocatable, pods);
    if s.managedRequests > 0 && s.slack > 0 {
      Stretch(s.slack as real, s.managedRequests as real);
    }
  }

  lemma Stretch(slack: real, m: real)
    requires m > 0.0
    ensures (1.0 + slack / m) * m == m + slack
  {
  }

  // ---- How each pod is judged ----

  /** The window a pod had when the pass began holds it when its turn comes. */
  predicate Open(o: Observation, b: Backoff) {
    o.view.key in b && o.verdictAt <= b[o.view.key]
  }

  /** The pod is to be decided on: it shares the slack, no window holds it, and it is not infeasible. */
  predicate ToDecide(o: Observation, b: Backoff) {
    SharesSlack(o.view) && !Open(o, b) && !o.infeasible
  }

  /** Judging the pod cannot go on: its namespace cannot be read, or, where it is to be decided on, its
      LimitRanges cannot. */
  predicate Stops(o: Observation, b: Backoff) {
    && !o.view.terminal && PassesGates(o.view)
    && (o.view.namespaceLookup == LookupFailed || (ToDecide(o, b) && o.view.limitRanges.None?))
  }

  /** What becomes of one pod: left out, counted for what is booked, holding its share, or decided on. */
  ghost predicate IsJudged(o: Observation, b: Backoff, period: Time, past: Past, built: Built) {
    var v := o.view;
    if v.terminal then !(exists p :: p in built.inputs && p.key == v.key) && SameWindow(v.key, b, built.backoff)
    else if !SharesSlack(v) then
      BuildPodInput(v, false) in built.inputs && !(exists e :: e in built.events && e.key == v.key)
    else if Open(o, b) then
      && BuildPodInput(v, false).(holdsShare := true) in built.inputs && SameWindow(v.key, b, built.backoff)
      && !(exists e :: e in built.events && e.key == v.key)
    else if o.infeasible then
      && BuildPodInput(v, false).(holdsShare := true) in built.inputs
      && Armed(v.key, o.armAt, Infeasible) in built.events
      && v.key in built.backoff && built.backoff[v.key] == o.armAt + period
    else
      && BuildPodInput(v, true).(limitRangeCap := CapOf(v, past)) in built.inputs
      && v.key !in built.backoff && !(exists e :: e in built.events && e.key == v.key)
  }

  lemma EventsAreListed(os: seq<Observation>, b: Backoff, period: Time, past: Past, k: PodKey)
    requires forall i :: 0 <= i < |os| ==> os[i].view.key != k
    ensures !(exists e :: e in BuildInputs(os, b, period, past).events && e.key == k)
    ensures !(exists p :: p in BuildInputs(os, b, period, past).inputs && p.key == k)
  {
    if os != [] {
      EventsAreListed(os[..|os| - 1], b, period, past, k);
      JudgeTouchesOne(os[|os| - 1], BuildInputs(os[..|os| - 1], b, period, past).backoff, period, past);
    }
  }

  ghost predicate SomeStops(os: seq<Observation>, b: Backoff) {
    exists i :: 0 <= i < |os| && Stops(os[i], b)
  }

  lemma StopsNext(os: seq<Observation>, b: Backoff)
    requires os != []
    ensures SomeStops(os, b) <==> SomeStops(os[..|os| - 1], b) || Stops(os[|os| - 1], b)
  {
    var front := os[..|os| - 1];
    if i :| 0 <= i < |front| && Stops(os[i], b) {
      assert Stops(front[i], b);
    }
    if i :| 0 <= i < |front| && Stops(front[i], b) {
      assert Stops(os[i], b);
    }
  }

  lemma JudgeStops(o: Observation, b: Backoff, now: Backoff, period: Time, past: Past)
    requires SameWindow(o.view.key, b, now)
    ensures JudgePod(o, now, period, past).judgement.Failed? <==> Stops(o, b)
  {
  }

  /** Building the inputs fails exactly where some pod's judgement cannot go on. */
  lemma {:induction false} NothingStops(os: seq<Observation>, b: Backoff, period: Time, past: Past)
    requires DistinctKeys(os)
    ensures BuildInputs(os, b, period, past).failed <==> SomeStops(os, b)
  {
    if os != [] {
      var front, o := os[..|os| - 1], os[|os| - 1];
      NothingStops(front, b, period, past);
      StopsNext(os, b);
      WindowUntil(front, o, b, period, past);
      JudgeStops(o, b, BuildInputs(front, b, period, past).backoff, period, past);
    }
  }

  /** The pods listed before it leave a pod's window alone. */
  lemma WindowUntil(front: seq<Observation>, o: Observation, b: Backoff, period: Time, past: Past)
    requires forall i :: 0 <= i < |front| ==> front[i].view.key != o.view.key
    ensures SameWindow(o.view.key, b, BuildInputs(front, b, period, past).backoff)
  {
    NothingBuilt(front, b, period, past);
    OthersBuilt(front, 0, b, period, past, o.view.key);
  }

  lemma NothingBuilt(os: seq<Observation>, b: Backoff, period: Time, past: Past)
    ensures BuildInputs(os[..0], b, period, past) == Built([], b, [], false)
  {
  }

  // ---- Each pod of a pass ----

  lemma JudgedNow(o: Observation, b: Backoff, period: Time, past: Past, front: Built, built: Built)
    requires !front.failed && SameWindow(o.view.key, b, front.backoff) && !Stops(o, b)
    requires !(exists e :: e in front.events && e.key == o.view.key)
    requires !(exists p :: p in front.inputs && p.key == o.view.key)
    requires built == With(front, JudgePod(o, front.backoff, period, past))
    ensures IsJudged(o, b, period, past, built)
  {
    var j := JudgePod(o, front.backoff, period, past);
    if j.judgement.Judged? {
      assert built.inputs[|front.inputs|] == j.judgement.input;
    }
    if j.events != [] {
      assert built.events[|front.events|] == j.events[0];
    }
  }

  /** What the loop has built once one more pod has been judged. */
  function With(front: Built, j: Judging): Built {
    Built(if j.judgement.Judged? then front.inputs + [j.judgement.input] else front.inputs, j.backoff,
          front.events + j.events, j.judgement.Failed?)
  }

  lemma JudgedLater(o: Observation, b: Backoff, period: Time, past: Past, early: Built, next: Observation, built: Built)
    requires IsJudged(o, b, period, past, early) && next.view.key != o.view.key
    requires built == With(early, JudgePod(next, early.backoff, period, past))
    ensures IsJudged(o, b, period, past, built)
  {
    var j := JudgePod(next, early.backoff, period, past);
    JudgeTouchesOne(next, early.backoff, period, past);
    assert forall p :: p in early.inputs ==> p in built.inputs;
    assert forall e :: e in early.events ==> e in built.events;
    assert forall e :: e in j.events ==> e.key == next.view.key;
    assert forall p :: p in built.inputs && p !in early.inputs ==> p.key == next.view.key;
  }

  lemma BuildIsWith(os: seq<Observation>, b: Backoff, period: Time, past: Past)
    requires os != [] && !BuildInputs(os, b, period, past).failed
    ensures var front, o := BuildInputs(os[..|os| - 1], b, period, past), os[|os| - 1];
      !front.failed && BuildInputs(os, b, period, past) == With(front, JudgePod(o, front.backoff, period, past))
  {
  }

  lemma {:induction false} JudgedAtItsTurn(os: seq<Observation>, b: Backoff, period: Time, past: Past, built: Built)
    requires os != [] && DistinctKeys(os) && built == BuildInputs(os, b, period, past) && !built.failed
    ensures IsJudged(os[|os| - 1], b, period, past, built)
  {
    var front, o := os[..|os| - 1], os[|os| - 1];
    NothingStops(os, b, period, past);
    BuildIsWith(os, b, period, past);
    LastIsJudged(front, o, b, period, past);
    JudgedNow(o, b, period, past, BuildInputs(front, b, period, past), built);
  }

  lemma {:induction false} JudgedFrom(os: seq<Observation>, b: Backoff, period: Time, past: Past, i: nat, built: Built)
    requires DistinctKeys(os) && i < |os| && built == BuildInputs(os, b, period, past) && !built.failed
    ensures IsJudged(os[i], b, period, past, built)
    decreases |os|
  {
    var front, o := os[..|os| - 1], os[|os| - 1];
    if i < |front| {
      var before := BuildInputs(front, b, period, past);
      BuildIsWith(os, b, period, past);
      JudgedFrom(front, b, period, past, i, before);
      JudgedLater(os[i], b, period, past, before, o, built);
    } else {
      JudgedAtItsTurn(os, b, period, past, built);
    }
  }

  /** Each pod a pass lists is judged on its own: by its gates, the window it had when the pass began, and
      its infeasible verdict, whatever its neighbours are. */
  lemma EachIsJudged(os: seq<Observation>, b: Backoff, period: Time, past: Past, i: nat)
    requires DistinctKeys(os) && i < |os| && !BuildInputs(os, b, period, past).failed
    ensures IsJudged(os[i], b, period, past, BuildInputs(os, b, period, past))
  {
    JudgedFrom(os, b, period, past, i, BuildInputs(os, b, period, past));
  }

  lemma LastIsJudged(front: seq<Observation>, o: Observation, b: Backoff, period: Time, past: Past)
    requires forall i :: 0 <= i < |front| ==> front[i].view.key != o.view.key
    ensures var before := BuildInputs(front, b, period, past);
      && SameWindow(o.view.key, b, before.backoff)
      && !(exists e :: e in before.events && e.key == o.view.key)
      && !(exists p :: p in before.inputs && p.key == o.view.key)
  {
    EventsAreListed(front, b, period, past, o.view.key);
    WindowUntil(front, o, b, period, past);
  }

  /** A pass decides on exactly the pods that share the slack, are held by no window and not infeasible. */
  lemma DecidesExactly(p: Pass, b: Backoff, period: Time, past: Past, i: nat)
    requires DistinctKeys(p.os) && i < |p.os| && !RunPass(p, b, period, past).built.failed
    ensures ToDecide(p.os[i], b) <==>
      exists d :: d in RunPass(p, b, period, past).decisions && d.key == p.os[i].view.key
  {
    var r, o := RunPass(p, b, period, past), p.os[i];
    EachIsJudged(p.os, b, period, past, i);
    BuildShape(p.os, b, period, past);
    if ToDecide(o, b) {
      var input := BuildPodInput(o.view, true).(limitRangeCap := CapOf(o.view, past));
      DecisionsCover(r.built.inputs, r.stats, p.cfg, Decide(input, r.stats, p.cfg));
    } else if d :| d in r.decisions && d.key == o.view.key {
      DecisionsCover(r.built.inputs, r.stats, p.cfg, d);
    }
  }
}
