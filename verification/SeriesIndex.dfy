/** The index of exported per-pod series: which node reports which pod, the series on the metrics
    endpoint, and the cluster-wide gauge (`internal/controller/node_controller.go`). */
module SeriesIndex {
  import opened Policy

  /** Node to the pods it reports. */
  type Series = map<string, set<PodKey>>

  /** `podSeries`, the pods with a `podLimitCores` series, and the value of `podsManaged`. */
  datatype Index = Index(series: Series, exported: set<PodKey>, gauge: int)

  function Shown(series: Series, node: string): set<PodKey> {
    if node in series then series[node] else {}
  }

  // ---- Steps ----

  datatype Step = Sync(node: string, current: set<PodKey>) | Forget(node: string)

  /** The pods whose series a step deletes. */
  function Leaving(series: Series, step: Step): set<PodKey> {
    match step
    case Sync(node, current) => Shown(series, node) - current
    case Forget(node) => Shown(series, node)
  }

  function Arriving(step: Step): set<PodKey> {
    if step.Sync? then step.current else {}
  }

  /** A reconcile sets the series of every pod it decided on, then deletes those of the pods that left;
      a node that is gone takes its pods' series with it. */
  ghost function Stepped(ix: Index, step: Step): Index {
    var series := if Arriving(step) == {} then ix.series - {step.node} else ix.series[step.node := Arriving(step)];
    Index(series, ix.exported + Arriving(step) - Leaving(ix.series, step), |Pairs(series)|)
  }

  ghost function Run(steps: seq<Step>): Index {
    if steps == [] then Index(map[], {}, 0) else Stepped(Run(steps[..|steps| - 1]), steps[|steps| - 1])
  }

  // ---- What the index should say ----

  ghost function Union(series: Series): set<PodKey> {
    set n, k | n in series && k in series[n] :: k
  }

  ghost function Pairs(series: Series): set<(string, PodKey)> {
    set n, k | n in series && k in series[n] :: (n, k)
  }

  /** The series on the endpoint are those of the pods some node reports. */
  ghost predicate Exact(ix: Index) {
    ix.exported == Union(ix.series)
  }

  ghost predicate NoneEmpty(series: Series) {
    forall n :: n in series ==> series[n] != {}
  }

  /** No pod key is held by two nodes. */
  ghost predicate Disjoint(series: Series) {
    forall m, n :: m in series && n in series && m != n ==> series[m] !! series[n]
  }

  /** Another node reports the pod. */
  ghost predicate Elsewhere(series: Series, node: string, k: PodKey) {
    exists n :: n in series && n != node && k in series[n]
  }

  /** The step deletes a series another node's pod is still reported under. */
  ghost predicate Clobbers(series: Series, step: Step) {
    exists k :: k in Leaving(series, step) && Elsewhere(series, step.node, k)
  }

  // ---- Exactly when the endpoint stays right ----

  lemma HeldHereOrElsewhere(series: Series, node: string, k: PodKey)
    ensures k in Union(series) <==> k in Shown(series, node) || Elsewhere(series, node, k)
  {
  }

  lemma StepMovesOneNode(ix: Index, step: Step, k: PodKey)
    ensures var after := Stepped(ix, step).series;
      && Shown(after, step.node) == Arriving(step)
      && (Elsewhere(after, step.node, k) <==> Elsewhere(ix.series, step.node, k))
  {
    var after := Stepped(ix, step).series;
    assert forall n :: n != step.node ==> (n in after <==> n in ix.series) && (n in after ==> after[n] == ix.series[n]);
  }

  /** From a right index, a step leaves a pod's series right if and only if it does not delete one that
      another node's pod is reported under. */
  lemma SeriesIsRight(ix: Index, step: Step, k: PodKey)
    requires Exact(ix)
    ensures (k in Stepped(ix, step).exported <==> k in Union(Stepped(ix, step).series)) <==>
            !(k in Leaving(ix.series, step) && Elsewhere(ix.series, step.node, k))
  {
    HeldHereOrElsewhere(ix.series, step.node, k);
    HeldHereOrElsewhere(Stepped(ix, step).series, step.node, k);
    StepMovesOneNode(ix, step, k);
  }

  /** From a right index, a step leaves a right one if and only if no pod that leaves the node is held
      by another. */
  lemma StepIsExact(ix: Index, step: Step)
    requires Exact(ix)
    ensures Exact(Stepped(ix, step)) <==> !Clobbers(ix.series, step)
  {
    var exported, union := Stepped(ix, step).exported, Union(Stepped(ix, step).series);
    forall k ensures (k in exported <==> k in union) <==>
        !(k in Leaving(ix.series, step) && Elsewhere(ix.series, step.node, k)) {
      SeriesIsRight(ix, step, k);
    }
    assert exported == union <==> forall k :: k in exported <==> k in union;
  }

  ghost predicate AlwaysExact(steps: seq<Step>) {
    Exact(Run(steps)) && (steps != [] ==> AlwaysExact(steps[..|steps| - 1]))
  }

  ghost predicate NeverClobbers(steps: seq<Step>) {
    steps != [] ==>
      var front := steps[..|steps| - 1];
      NeverClobbers(front) && !Clobbers(Run(front).series, steps[|steps| - 1])
  }

  /** Over a whole run the endpoint is right after every step if and only if no step clobbers. */
  lemma {:induction false} RunIsExact(steps: seq<Step>)
    ensures AlwaysExact(steps) <==> NeverClobbers(steps)
  {
    if steps != [] {
      var front := steps[..|steps| - 1];
      RunIsExact(front);
      if Exact(Run(front)) {
        StepIsExact(Run(front), steps[|steps| - 1]);
      }
    }
  }

  lemma OneStepMore(steps: seq<Step>, step: Step)
    ensures Run(steps + [step]) == Stepped(Run(steps), step)
  {
    assert (steps + [step])[..|steps|] == steps;
  }

  lemma ThreeSteps(first: Step, second: Step, third: Step)
    ensures Run([first, second, third]) == Stepped(Stepped(Stepped(Index(map[], {}, 0), first), second), third)
  {
    OneStepMore([], first);
    OneStepMore([first], second);
    OneStepMore([first, second], third);
    assert [] + [first] == [first] && [first] + [second] == [first, second];
    assert [first, second] + [third] == [first, second, third];
  }

  lemma PodArrives(ix: Index, node: string, k: PodKey)
    ensures var after := Stepped(ix, Sync(node, {k}));
      after.series == ix.series[node := {k}] && (ix.exported <= {k} ==> after.exported == {k})
  {
    assert Arriving(Sync(node, {k})) != {};
  }

  lemma PodLeaves(ix: Index, a: string, b: string, k: PodKey)
    requires a != b && ix.series == map[a := {k}][b := {k}] && ix.exported == {k}
    ensures var after := Stepped(ix, Sync(a, {}));
      after.series == map[b := {k}] && after.exported == {} && after.gauge == 1
  {
    assert ix.series - {a} == map[b := {k}];
    assert Leaving(ix.series, Sync(a, {})) == {k};
    assert Pairs(map[b := {k}]) == {(b, k)};
  }

  /** A pod that moved and whose new node reconciled first: the old node's reconcile deletes the live
      series, while the count still has the pod. */
  lemma MovedPodLosesItsSeries(a: string, b: string, k: PodKey)
    requires a != b
    ensures var ix := Run([Sync(a, {k}), Sync(b, {k}), Sync(a, {})]);
      ix.series == map[b := {k}] && ix.exported == {} && ix.gauge == 1
  {
    var none := Index(map[], {}, 0);
    ThreeSteps(Sync(a, {k}), Sync(b, {k}), Sync(a, {}));
    PodArrives(none, a, k);
    PodArrives(Stepped(none, Sync(a, {k})), b, k);
    PodLeaves(Stepped(Stepped(none, Sync(a, {k})), Sync(b, {k})), a, b, k);
  }

  /** ... until the new node's next reconcile, which always exports all of its own. */
  lemma SyncExportsItsOwn(ix: Index, node: string, current: set<PodKey>)
    ensures current <= Stepped(ix, Sync(node, current)).exported
  {
  }

  // ---- Counts ----

  lemma {:induction false} PairsOfOne(node: string, s: set<PodKey>)
    ensures |set k | k in s :: (node, k)| == |s|
  {
    if s != {} {
      var x :| x in s;
      PairsOfOne(node, s - {x});
      assert (set k | k in s :: (node, k)) == (set k | k in s - {x} :: (node, k)) + {(node, x)};
    }
  }

  /** A node's own pods and everyone else's make up the count. */
  lemma SplitPairs(series: Series, node: string)
    ensures |Pairs(series)| == |Pairs(series - {node})| + |Shown(series, node)|
  {
    var own := set k | k in Shown(series, node) :: (node, k);
    PairsOfOne(node, Shown(series, node));
    assert Pairs(series) == Pairs(series - {node}) + own;
    assert Pairs(series - {node}) !! own;
  }

  /** A step moves the gauge by what its node gained less what it lost. */
  lemma GaugeMovesByDifference(ix: Index, step: Step)
    requires ix.gauge == |Pairs(ix.series)|
    ensures Stepped(ix, step).gauge == ix.gauge - |Shown(ix.series, step.node)| + |Arriving(step)|
  {
    var after := Stepped(ix, step);
    SplitPairs(ix.series, step.node);
    SplitPairs(after.series, step.node);
    assert after.series - {step.node} == ix.series - {step.node};
    assert Shown(after.series, step.node) == Arriving(step);
  }

  ghost function Seconds(pairs: set<(string, PodKey)>): set<PodKey> {
    set p | p in pairs :: p.1
  }

  ghost predicate SecondsDiffer(pairs: set<(string, PodKey)>) {
    forall p, q :: p in pairs && q in pairs && p.1 == q.1 ==> p == q
  }

  lemma {:induction false} CountSeconds(pairs: set<(string, PodKey)>)
    ensures |Seconds(pairs)| <= |pairs|
    ensures |Seconds(pairs)| == |pairs| <==> SecondsDiffer(pairs)
  {
    if pairs != {} {
      var p :| p in pairs;
      var rest := pairs - {p};
      CountSeconds(rest);
      assert Seconds(pairs) == Seconds(rest) + {p.1};
      if q :| q in rest && q.1 == p.1 {
        assert Seconds(pairs) == Seconds(rest);
      } else {
        assert p.1 !in Seconds(rest);
      }
    }
  }

  /** The gauge counts the exported series if and only if no pod key is held by two nodes; otherwise
      it counts more. */
  lemma GaugeCountsSeries(ix: Index)
    requires Exact(ix) && ix.gauge == |Pairs(ix.series)|
    ensures |ix.exported| <= ix.gauge
    ensures |ix.exported| == ix.gauge <==> Disjoint(ix.series)
  {
    var series, pairs := ix.series, Pairs(ix.series);
    CountSeconds(pairs);
    forall k ensures k in Seconds(pairs) <==> k in Union(series) {
      if k in Union(series) {
        var n :| n in series && k in series[n];
        assert (n, k) in pairs;
      }
    }
    assert Seconds(pairs) == Union(series);
    if SecondsDiffer(pairs) {
      forall m, n | m in series && n in series && m != n ensures series[m] !! series[n] {
        forall k | k in series[m] ensures k !in series[n] {
          assert (m, k) in pairs;
          assert k in series[n] ==> (n, k) in pairs;
        }
      }
    }
    if Disjoint(series) {
      forall p, q | p in pairs && q in pairs && p.1 == q.1 ensures p == q {
        assert p.0 in series && q.0 in series && p.1 in series[p.0] && p.1 in series[q.0];
      }
    }
  }

  // ---- Entries ----

  /** The nodes that report a pod. */
  ghost function Peopled(series: Series): set<string> {
    set n | n in series && series[n] != {}
  }

  /** Over any run, exclusive or not, no node has an empty entry, so the nodes with a pod are the entries. */
  lemma {:induction false} EveryEntryHasAPod(steps: seq<Step>)
    ensures NoneEmpty(Run(steps).series) && |Peopled(Run(steps).series)| == |Run(steps).series|
  {
    if steps != [] {
      EveryEntryHasAPod(steps[..|steps| - 1]);
    }
    assert Peopled(Run(steps).series) == Run(steps).series.Keys;
  }

  // ---- Runs in which no pod key is held by two nodes ----

  /** No other node still reports a pod the step exports. */
  ghost predicate Fresh(series: Series, step: Step) {
    forall n :: n in series && n != step.node ==> series[n] !! Arriving(step)
  }

  /** What a cluster in which a pod is bound to one node shows its reconciles: no reconcile lists a pod
      that another node still reports. */
  ghost predicate Exclusive(steps: seq<Step>) {
    steps != [] ==>
      var front := steps[..|steps| - 1];
      Exclusive(front) && Fresh(Run(front).series, steps[|steps| - 1])
  }

  ghost predicate Right(ix: Index) {
    && Exact(ix) && NoneEmpty(ix.series) && Disjoint(ix.series)
    && ix.gauge == |Pairs(ix.series)| == |ix.exported|
  }

  lemma ExclusiveIsClean(series: Series, step: Step)
    requires Disjoint(series)
    ensures !Clobbers(series, step)
  {
    forall k | k in Leaving(series, step) ensures !Elsewhere(series, step.node, k) {
      assert step.node in series;
    }
  }

  lemma StepKeepsApart(ix: Index, step: Step)
    requires NoneEmpty(ix.series) && Disjoint(ix.series) && Fresh(ix.series, step)
    ensures NoneEmpty(Stepped(ix, step).series) && Disjoint(Stepped(ix, step).series)
  {
    var after := Stepped(ix, step).series;
    assert forall n :: n != step.node && n in after ==> n in ix.series && after[n] == ix.series[n];
    assert step.node in after ==> after[step.node] == Arriving(step);
  }

  lemma StepKeepsRight(ix: Index, step: Step)
    requires Right(ix) && Fresh(ix.series, step)
    ensures Right(Stepped(ix, step))
  {
    StepIsExact(ix, step);
    ExclusiveIsClean(ix.series, step);
    StepKeepsApart(ix, step);
    GaugeCountsSeries(Stepped(ix, step));
  }

  /** The exported series are exactly the union of the nodes' sets, no node has an empty entry, and the
      gauge is their number. */
  lemma {:induction false} ExclusiveRunIsRight(steps: seq<Step>)
    requires Exclusive(steps)
    ensures Right(Run(steps))
  {
    if steps == [] {
      assert Pairs(map[]) == {} && Union(map[]) == {};
    } else {
      var front := steps[..|steps| - 1];
      ExclusiveRunIsRight(front);
      StepKeepsRight(Run(front), steps[|steps| - 1]);
    }
  }
}
