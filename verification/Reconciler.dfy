/** The reconciler with the state it keeps between passes, each method held to what it computes
    (`internal/controller/node_controller.go`). */
module Reconciler {
  import opened LimitRange
  import opened Options
  import opened Policy
  import opened PodInputs
  import opened ReconcilePass
  import opened BackoffRuns
  import opened Requeue
  import opened PassReads
  import opened SeriesIndex

  const DEFAULT_DEBOUNCE: Time := 2 * SECOND
  const DEFAULT_BACKOFF: Time := 60 * SECOND

  datatype NodeLookup = NodeMissing | NodeUnread | NodeRead(allocatable: int)

  datatype ResolvedConfig = ResolvedConfig(policy: Config, dryRun: bool, debouncePeriod: Time)

  /** What one reconcile is given: whether VPAs have been listed, the configuration, the node, the pods
      on it (None where reading fails), the answers to patches, and a draw for the jitter. */
  datatype Scene = Scene(
    vpasSynced: bool,
    config: Option<ResolvedConfig>,
    node: NodeLookup,
    pods: Option<seq<Observation>>,
    attempts: seq<Attempt>,
    judgedAt: Time,
    draw: real)

  /** The pass a reconcile runs, where it gets that far. */
  function PassOf(scene: Scene): Pass
    requires scene.config.Some? && scene.node.NodeRead? && scene.pods.Some?
  {
    Pass(scene.node.allocatable, scene.pods.value, scene.attempts, scene.config.value.policy,
         scene.config.value.dryRun, scene.judgedAt)
  }

  predicate Runs(scene: Scene) {
    scene.vpasSynced && scene.config.Some? && scene.node.NodeRead? && scene.pods.Some?
  }

  function DecidedKeys(ds: seq<Decision>): set<PodKey> {
    set d | d in ds :: d.key
  }

  /** The pods a reconcile reports for its node: every one it decided on, whether or not it was patched. */
  lemma DecidedKeysExactly(p: Pass, b: Backoff, period: Time, past: Past, i: nat)
    requires DistinctKeys(p.os) && i < |p.os| && !RunPass(p, b, period, past).built.failed
    ensures p.os[i].view.key in DecidedKeys(RunPass(p, b, period, past).decisions) <==> ToDecide(p.os[i], b)
  {
    DecidesExactly(p, b, period, past, i);
  }

  // ---- Loops that leave early ----

  lemma {:induction false} FailureEndsBuild(os: seq<Observation>, n: nat, b: Backoff, period: Time, past: Past)
    requires n <= |os| && BuildInputs(os[..n], b, period, past).failed
    ensures BuildInputs(os, b, period, past) == BuildInputs(os[..n], b, period, past)
    decreases |os|
  {
    if n == |os| {
      assert os[..n] == os;
    } else {
      var front := os[..|os| - 1];
      assert front[..n] == os[..n];
      FailureEndsBuild(front, n, b, period, past);
    }
  }

  lemma {:induction false} StopEndsApply(ds: seq<Decision>, n: nat, attempts: seq<Attempt>, b: Backoff, dryRun: bool,
                                         period: Time)
    requires n <= |ds| && ApplyAll(ds[..n], attempts, b, dryRun, period).stopped
    ensures ApplyAll(ds, attempts, b, dryRun, period) == ApplyAll(ds[..n], attempts, b, dryRun, period)
    decreases |ds|
  {
    if n == |ds| {
      assert ds[..n] == ds;
    } else {
      var front := ds[..|ds| - 1];
      assert front[..n] == ds[..n];
      StopEndsApply(front, n, attempts, b, dryRun, period);
    }
  }

  lemma BuildNext(os: seq<Observation>, n: nat, b: Backoff, period: Time, past: Past)
    requires n < |os| && !BuildInputs(os[..n], b, period, past).failed
    ensures var before, built := BuildInputs(os[..n], b, period, past), BuildInputs(os[..n + 1], b, period, past);
      var j := JudgePod(os[n], before.backoff, period, past);
      built == Built(if j.judgement.Judged? then before.inputs + [j.judgement.input] else before.inputs,
                     j.backoff, before.events + j.events, j.judgement.Failed?)
  {
    assert os[..n + 1][..n] == os[..n];
  }

  lemma ApplyNext(ds: seq<Decision>, n: nat, attempts: seq<Attempt>, b: Backoff, dryRun: bool, period: Time)
    requires n < |ds|
    ensures ApplyAll(ds[..n + 1], attempts, b, dryRun, period) ==
            ApplyOne(ds[n], AttemptAt(attempts, n), ApplyAll(ds[..n], attempts, b, dryRun, period), dryRun, period)
  {
    assert ds[..n + 1][..n] == ds[..n];
  }

  lemma CountOneMore(series: Series, rest: set<string>, node: string)
    requires node in rest && rest <= series.Keys
    ensures |Pairs(series - (rest - {node}))| == |Pairs(series - rest)| + |series[node]|
    ensures |Peopled(series - (rest - {node}))| == |Peopled(series - rest)| + if series[node] == {} then 0 else 1
  {
    SplitPairs(series - (rest - {node}), node);
    assert series - (rest - {node}) - {node} == series - rest;
    assert Peopled(series - (rest - {node})) == Peopled(series - rest) + if series[node] == {} then {} else {node};
  }

  lemma RunIsSound(scene: Scene, b: Backoff, log: seq<Event>, start: Time, finishedAt: Time, period: Time, past: Past)
    requires Runs(scene)
    ensures var p := PassOf(scene);
      Sound(b, log, start, period) && start <= scene.judgedAt && InOrder(p, finishedAt) && DistinctKeys(p.os) ==>
        Sound(EndBackoff(p, b, period, past), log + PassEvents(p, b, period, past), finishedAt, period)
  {
    var p := PassOf(scene);
    if Sound(b, log, start, period) && start <= scene.judgedAt && InOrder(p, finishedAt) && DistinctKeys(p.os) {
      PassKeepsSound(p, b, log, start, finishedAt, period, past);
    }
  }

  lemma HeldIsSeenAgain(scene: Scene, b: Backoff, finishedAt: Time, period: Time, debounce: Time, past: Past,
                        sched: Schedule)
    requires Runs(scene) && period > 0 && debounce > 0
    requires IsSchedule(sched, PassOf(scene), RunPass(PassOf(scene), b, period, past), debounce)
    ensures InOrder(PassOf(scene), finishedAt) && DistinctKeys(PassOf(scene).os) ==>
      forall k :: HeldBack(RunPass(PassOf(scene), b, period, past), k) ==> sched.After? ==> sched.delay > 0
  {
    var p := PassOf(scene);
    if InOrder(p, finishedAt) && DistinctKeys(p.os) {
      forall k | HeldBack(RunPass(p, b, period, past), k) ensures sched.After? ==> sched.delay > 0 {
        HeldPodIsRequeued(p, b, finishedAt, period, debounce, past, sched, k);
      }
    }
  }

  /** The parts of a pass, as the code comes to them. */
  ghost predicate IsResult(r: PassResult, p: Pass, b: Backoff, period: Time, past: Past) {
    && r.built == BuildInputs(p.os, b, period, past)
    && r.decisions == Decisions(r.built.inputs, Stats(p.allocatable, r.built.inputs), p.cfg)
    && r.applied == if r.built.failed then Applied(r.built.backoff, [], {}, false, true, true)
                    else ApplyAll(r.decisions, p.attempts, r.built.backoff, p.dryRun, period)
  }

  class NodeReconciler {
    /** Tests set these; zero leaves the default, or what the configuration says. */
    const debounceOverride: Time
    const backoffOverride: Time

    var dynamicDebounce: Time // zero until a reconcile has published one
    var backoff: Backoff
    var podSeries: Series
    var podLimitCores: set<PodKey>
    var podsManaged: int

    /** Every window opened and every patch sent so far. */
    ghost var log: seq<Event>

    constructor (debounceOverride: Time, backoffOverride: Time)
      ensures this.debounceOverride == debounceOverride && this.backoffOverride == backoffOverride
      ensures dynamicDebounce == 0 && backoff == map[] && log == [] && Shows() == Index(map[], {}, 0)
    {
      this.debounceOverride, this.backoffOverride := debounceOverride, backoffOverride;
      dynamicDebounce, backoff, podSeries, podLimitCores, podsManaged, log := 0, map[], map[], {}, 0, [];
    }

    ghost function Shows(): Index
      reads this
    {
      Index(podSeries, podLimitCores, podsManaged)
    }

    // ---- Timing ----

    function BackoffPeriod(): (d: Time)
      ensures d > 0 && (backoffOverride > 0 ==> d == backoffOverride)
      ensures backoffOverride <= 0 ==> d == 60 * SECOND
    {
      if backoffOverride > 0 then backoffOverride else DEFAULT_BACKOFF
    }

    method SetDebounce(d: Time)
      modifies this`dynamicDebounce
      ensures dynamicDebounce == if d > 0 then d else old(dynamicDebounce)
    {
      if d > 0 {
        dynamicDebounce := d;
      }
    }

    function BaseEnqueueDelay(): (d: Time)
      reads this`dynamicDebounce
      ensures d > 0 && (debounceOverride > 0 ==> d == debounceOverride)
      ensures debounceOverride <= 0 ==> d == if dynamicDebounce > 0 then dynamicDebounce else 2 * SECOND
    {
      if debounceOverride > 0 then debounceOverride
      else if dynamicDebounce > 0 then dynamicDebounce
      else DEFAULT_DEBOUNCE
    }

    /** `enqueueDelay`, for a draw in [0, 1). */
    function JitteredDelay(draw: real): (d: Time)
      requires 0.0 <= draw < 1.0
      reads this`dynamicDebounce
      ensures 0 < d && BaseEnqueueDelay() - BaseEnqueueDelay() / 2 <= d <= BaseEnqueueDelay() + BaseEnqueueDelay() / 2
    {
      DelayIsJittered(BaseEnqueueDelay(), draw);
      EnqueueDelay(BaseEnqueueDelay(), draw)
    }

    /** `backoffRequeue`: over the pods in any order. */
    method BackoffRequeue(pods: set<PodKey>, now: Time, debounce: Time) returns (delay: Time)
      ensures IsBackoffRequeue(delay, pods, backoff, now, debounce)
    {
      var next: Option<Time> := None;
      var rest := pods;
      while rest != {}
        invariant rest <= pods
        invariant next == None ==> NoneOpen(pods - rest, backoff, now)
        invariant next.Some? ==> IsEarliestEnd(pods - rest, backoff, now, next.value)
        decreases |rest|
      {
        var key :| key in rest;
        if key in backoff {
          var until := backoff[key];
          if now <= until && (next == None || until < next.value) {
            next := Some(until);
          }
        }
        rest := rest - {key};
      }
      assert pods - rest == pods;
      if next == None {
        return 0;
      }
      delay := next.value - now + debounce;
    }

    // ---- Backoff ----

    method InBackoff(key: PodKey, at: Time) returns (held: bool)
      modifies this`backoff
      ensures (held, backoff) == Verdict(old(backoff), key, at)
    {
      if key !in backoff {
        return false;
      }
      if at > backoff[key] {
        backoff := backoff - {key};
        return false;
      }
      return true;
    }

    method SetBackoffKey(key: PodKey, at: Time, cause: Cause)
      modifies this`backoff, this`log
      ensures backoff == old(backoff)[key := at + BackoffPeriod()] && log == old(log) + [Armed(key, at, cause)]
    {
      backoff, log := backoff[key := at + BackoffPeriod()], log + [Armed(key, at, cause)];
    }

    // ---- Building inputs ----

    method JudgeOne(o: Observation, past: Past) returns (judgement: Judgement)
      modifies this`backoff, this`log
      ensures var j := JudgePod(o, old(backoff), BackoffPeriod(), past);
        judgement == j.judgement && backoff == j.backoff && log == old(log) + j.events
    {
      var v := o.view;
      if v.terminal {
        return Skipped;
      }
      var managed, holdsShare := false, false;
      if PassesGates(v) {
        var backedOff := InBackoff(v.key, o.verdictAt);
        if v.namespaceLookup == LookupFailed {
          return Failed;
        }
        var ok := v.namespaceLookup == Enrolled && !v.vpaManaged;
        managed, holdsShare := ok && !backedOff, ok && backedOff;
      }
      if managed && o.infeasible {
        SetBackoffKey(v.key, o.armAt, Infeasible);
        managed, holdsShare := false, true;
      }
      var input := BuildPodInput(v, managed).(holdsShare := holdsShare);
      if managed {
        if v.limitRanges.None? {
          return Failed;
        }
        input := input.(limitRangeCap := CapOf(v, past));
      }
      return Judged(input);
    }

    method BuildAll(os: seq<Observation>, past: Past) returns (inputs: seq<PodInput>, failed: bool)
      modifies this`backoff, this`log
      ensures var built := BuildInputs(os, old(backoff), BackoffPeriod(), past);
        && failed == built.failed && backoff == built.backoff && log == old(log) + built.events
        && (!failed ==> inputs == built.inputs)
    {
      inputs, failed := [], false;
      ghost var es: seq<Event> := [];
      for i := 0 to |os|
        invariant BuildInputs(os[..i], old(backoff), BackoffPeriod(), past) == Built(inputs, backoff, es, false)
        invariant log == old(log) + es
      {
        BuildNext(os, i, old(backoff), BackoffPeriod(), past);
        es := es + JudgePod(os[i], backoff, BackoffPeriod(), past).events;
        var judgement := JudgeOne(os[i], past);
        if judgement.Failed? {
          FailureEndsBuild(os, i + 1, old(backoff), BackoffPeriod(), past);
          return [], true;
        }
        if judgement.Judged? {
          inputs := inputs + [judgement.input];
        }
      }
      assert os[..|os|] == os;
    }

    // ---- Applying decisions ----

    /** What a refused or failed patch means: try the node again soon, nothing, a window, or an error
        of the pass. */
    method ClassifyResizeError(key: PodKey, outcome: Outcome, at: Time) returns (soon: bool, handled: bool)
      requires outcome != Accepted
      modifies this`backoff, this`log
      ensures soon == (outcome == Conflict) && handled == (outcome != OtherError)
      ensures outcome == Forbidden ==>
        backoff == old(backoff)[key := at + BackoffPeriod()] && log == old(log) + [Armed(key, at, Refused)]
      ensures outcome != Forbidden ==> backoff == old(backoff) && log == old(log)
    {
      match outcome
      case NotFound => return false, true;
      case Conflict => return true, true;
      case Forbidden =>
        SetBackoffKey(key, at, Refused);
        return false, true;
      case OtherError => return false, false;
    }

    method ApplyDecisions(ds: seq<Decision>, attempts: seq<Attempt>, dryRun: bool)
      returns (accepted: set<PodKey>, rateLimited: bool, failed: bool)
      modifies this`backoff, this`log
      ensures var a := ApplyAll(ds, attempts, old(backoff), dryRun, BackoffPeriod());
        && backoff == a.backoff && log == old(log) + a.events
        && accepted == a.accepted && rateLimited == a.rateLimited && failed == a.failed
    {
      accepted, rateLimited, failed := {}, false, false;
      ghost var es: seq<Event> := [];
      for i := 0 to |ds|
        invariant ApplyAll(ds[..i], attempts, old(backoff), dryRun, BackoffPeriod()) ==
                  Applied(backoff, es, accepted, rateLimited, failed, false)
        invariant log == old(log) + es
      {
        ApplyNext(ds, i, attempts, old(backoff), dryRun, BackoffPeriod());
        if !ds[i].apply || dryRun {
          continue;
        }
        var attempt := AttemptAt(attempts, i);
        if !attempt.allowed {
          StopEndsApply(ds, i + 1, attempts, old(backoff), dryRun, BackoffPeriod());
          return accepted, true, failed;
        }
        ghost var sent := Patched(ds[i].key, attempt.sentAt);
        LogIsJoined(old(log), es, [sent]);
        LogIsJoined(old(log), es + [sent], [Armed(ds[i].key, attempt.answeredAt, Refused)]);
        es := ApplyAll(ds[..i + 1], attempts, old(backoff), dryRun, BackoffPeriod()).events;
        log := log + [Patched(ds[i].key, attempt.sentAt)];
        if attempt.outcome == Accepted {
          accepted := accepted + {ds[i].key};
        } else {
          var soon, handled := ClassifyResizeError(ds[i].key, attempt.outcome, attempt.answeredAt);
          rateLimited, failed := rateLimited || soon, failed || !handled;
        }
      }
      assert ds[..|ds|] == ds;
    }

    // ---- The series index ----

    method RefreshPodsManaged()
      modifies this`podsManaged
      ensures podsManaged == |Pairs(podSeries)|
    {
      var total, rest := 0, podSeries.Keys;
      assert Pairs(podSeries - rest) == {};
      while rest != {}
        invariant rest <= podSeries.Keys && total == |Pairs(podSeries - rest)|
        decreases |rest|
      {
        var node :| node in rest;
        CountOneMore(podSeries, rest, node);
        total, rest := total + |podSeries[node]|, rest - {node};
      }
      assert podSeries - rest == podSeries;
      podsManaged := total;
    }

    method SyncPodMetrics(node: string, current: set<PodKey>)
      modifies this`podSeries, this`podLimitCores, this`podsManaged
      ensures podSeries == if current == {} then old(podSeries) - {node} else old(podSeries)[node := current]
      ensures podLimitCores == old(podLimitCores) - (Shown(old(podSeries), node) - current)
      ensures podsManaged == |Pairs(podSeries)|
    {
      var rest := if node in podSeries then podSeries[node] else {};
      ghost var all := rest;
      while rest != {}
        invariant podSeries == old(podSeries)
        invariant rest <= all && podLimitCores == old(podLimitCores) - (all - rest - current)
        decreases |rest|
      {
        var key :| key in rest;
        if key !in current {
          podLimitCores := podLimitCores - {key};
        }
        rest := rest - {key};
      }
      if current == {} {
        podSeries := podSeries - {node};
      } else {
        podSeries := podSeries[node := current];
      }
      RefreshPodsManaged();
    }

    method ForgetNode(node: string)
      modifies this`podSeries, this`podLimitCores, this`podsManaged
      ensures Shows() == Stepped(old(Shows()), Forget(node))
    {
      var rest := if node in podSeries then podSeries[node] else {};
      ghost var all := rest;
      while rest != {}
        invariant podSeries == old(podSeries)
        invariant rest <= all && podLimitCores == old(podLimitCores) - (all - rest)
        decreases |rest|
      {
        var key :| key in rest;
        podLimitCores, rest := podLimitCores - {key}, rest - {key};
      }
      podSeries := podSeries - {node};
      assert podLimitCores == old(podLimitCores) + {} - Shown(old(podSeries), node);
      RefreshPodsManaged();
    }

    /** Sets the series of every pod decided on, and deletes those of the pods that left. */
    method ExportDecisions(node: string, ds: seq<Decision>)
      modifies this`podSeries, this`podLimitCores, this`podsManaged
      ensures Shows() == Stepped(old(Shows()), Sync(node, DecidedKeys(ds)))
    {
      var current: set<PodKey> := {};
      for i := 0 to |ds|
        invariant podSeries == old(podSeries)
        invariant current == DecidedKeys(ds[..i]) && podLimitCores == old(podLimitCores) + current
      {
        podLimitCores, current := podLimitCores + {ds[i].key}, current + {ds[i].key};
      }
      assert ds[..|ds|] == ds;
      SyncPodMetrics(node, current);
    }

    /** `ManagedCounts`: pods are (node, pod) pairs, nodes are those with a pod. */
    method ManagedCounts() returns (pods: int, nodes: int)
      ensures pods == |Pairs(podSeries)|
      ensures nodes == |Peopled(podSeries)| && (NoneEmpty(podSeries) ==> nodes == |podSeries|)
    {
      pods, nodes := 0, 0;
      var rest := podSeries.Keys;
      assert Pairs(podSeries - rest) == {} && Peopled(podSeries - rest) == {};
      while rest != {}
        invariant rest <= podSeries.Keys && pods == |Pairs(podSeries - rest)|
        invariant nodes == |Peopled(podSeries - rest)|
        decreases |rest|
      {
        var node :| node in rest;
        CountOneMore(podSeries, rest, node);
        rest := rest - {node};
        if |podSeries[node]| > 0 {
          pods, nodes := pods + |podSeries[node]|, nodes + 1;
        }
      }
      assert podSeries - rest == podSeries;
      assert NoneEmpty(podSeries) ==> Peopled(podSeries) == podSeries.Keys;
    }

    // ---- Reconcile ----

    /** From the policy's inputs to asking for the next look. */
    method Enact(node: string, inputs: seq<PodInput>, p: Pass, debounce: Time)
      returns (sched: Schedule, patched: set<PodKey>)
      modifies this
      ensures dynamicDebounce == old(dynamicDebounce)
      ensures var ds := Decisions(inputs, Stats(p.allocatable, inputs), p.cfg);
        var a := ApplyAll(ds, p.attempts, old(backoff), p.dryRun, BackoffPeriod());
        && backoff == a.backoff && log == old(log) + a.events && patched == a.accepted
        && Shows() == Stepped(old(Shows()), Sync(node, DecidedKeys(ds)))
        && IsAnswer(sched, Keys(inputs), a, p.judgedAt, debounce)
    {
      var stats, decisions := Compute(p.allocatable, inputs, p.cfg);
      ExportDecisions(node, decisions);
      var accepted, rateLimited, failed := ApplyDecisions(decisions, p.attempts, p.dryRun);
      patched := accepted;
      if failed {
        sched := OnError;
      } else if rateLimited {
        sched := After(SECOND);
      } else {
        var delay := BackoffRequeue(Keys(inputs), p.judgedAt, debounce);
        sched := After(delay);
      }
    }

    /** From judging the pods to asking for the next look. */
    method JudgeAndEnact(node: string, p: Pass, debounce: Time, past: Past, ghost r: PassResult)
      returns (sched: Schedule, patched: set<PodKey>)
      requires IsResult(r, p, backoff, BackoffPeriod(), past)
      modifies this
      ensures dynamicDebounce == old(dynamicDebounce)
      ensures backoff == r.applied.backoff && log == old(log) + (r.built.events + r.applied.events)
      ensures patched == r.applied.accepted
      ensures IsSchedule(sched, p, r, debounce)
      ensures Shows() == if r.built.failed then old(Shows())
                         else Stepped(old(Shows()), Sync(node, DecidedKeys(r.decisions)))
    {
      var inputs, unread := BuildAll(p.os, past);
      if unread {
        LogIsJoined(old(log), r.built.events, []);
        return OnError, {};
      }
      LogIsJoined(old(log), r.built.events, r.applied.events);
      sched, patched := Enact(node, inputs, p, debounce);
    }

    /** ... which is the pass on this state. */
    method RunOn(node: string, p: Pass, debounce: Time, past: Past) returns (sched: Schedule, patched: set<PodKey>)
      modifies this
      ensures dynamicDebounce == old(dynamicDebounce)
      ensures var r := RunPass(p, old(backoff), BackoffPeriod(), past);
        && backoff == r.applied.backoff && log == old(log) + PassEvents(p, old(backoff), BackoffPeriod(), past)
        && patched == r.applied.accepted
        && IsSchedule(sched, p, r, debounce)
        && Shows() == if r.built.failed then old(Shows())
                      else Stepped(old(Shows()), Sync(node, DecidedKeys(r.decisions)))
    {
      sched, patched := JudgeAndEnact(node, p, debounce, past, RunPass(p, backoff, BackoffPeriod(), past));
    }

    /** One reconcile, and what it keeps: over any number of them no patch goes inside a window and no
        two warnings for a pod come within a period, and one that holds a pod back asks to be run
        again. */
    method Reconcile(node: string, scene: Scene, past: Past, ghost start: Time, ghost finishedAt: Time)
      returns (sched: Schedule, patched: set<PodKey>)
      requires 0.0 <= scene.draw < 1.0
      modifies this
      ensures !scene.vpasSynced ==> sched == After(SECOND)
      ensures scene.vpasSynced && scene.config.None? ==> sched == OnError
      ensures dynamicDebounce == if scene.vpasSynced && scene.config.Some? && scene.config.value.debouncePeriod > 0
                                 then scene.config.value.debouncePeriod else old(dynamicDebounce)
      ensures Runs(scene) ==>
        var p, b := PassOf(scene), old(backoff);
        var r := RunPass(p, b, BackoffPeriod(), past);
        && backoff == r.applied.backoff && log == old(log) + PassEvents(p, b, BackoffPeriod(), past)
        && patched == r.applied.accepted
        && IsSchedule(sched, p, r, JitteredDelay(scene.draw))
        && Shows() == if r.built.failed then old(Shows())
                      else Stepped(old(Shows()), Sync(node, DecidedKeys(r.decisions)))
      ensures !Runs(scene) ==>
        && backoff == old(backoff) && log == old(log) && patched == {}
        && (if scene.vpasSynced && scene.config.Some? && scene.node.NodeMissing?
            then sched == After(0) && Shows() == Stepped(old(Shows()), Forget(node))
            else Shows() == old(Shows()) && (scene.vpasSynced ==> sched == OnError))
      ensures Sound(old(backoff), old(log), start, BackoffPeriod()) && start <= scene.judgedAt <= finishedAt
              && (Runs(scene) ==> InOrder(PassOf(scene), finishedAt) && DistinctKeys(PassOf(scene).os)) ==>
        Sound(backoff, log, finishedAt, BackoffPeriod())
      ensures Runs(scene) && InOrder(PassOf(scene), finishedAt) && DistinctKeys(PassOf(scene).os) ==>
        forall k :: HeldBack(RunPass(PassOf(scene), old(backoff), BackoffPeriod(), past), k) ==>
          sched.After? ==> sched.delay > 0
    {
      patched := {};
      if Sound(backoff, log, start, BackoffPeriod()) && start <= scene.judgedAt <= finishedAt {
        TimePasses(backoff, log, start, finishedAt, BackoffPeriod());
      }
      if !scene.vpasSynced {
        return After(SECOND), {};
      }
      if scene.config.None? {
        return OnError, {};
      }
      SetDebounce(scene.config.value.debouncePeriod);
      if scene.node.NodeMissing? {
        ForgetNode(node);
        return After(0), {};
      }
      if scene.node.NodeUnread? || scene.pods.None? {
        return OnError, {};
      }
      ghost var b, before := backoff, log;
      var debounce := JitteredDelay(scene.draw);
      sched, patched := RunOn(node, PassOf(scene), debounce, past);
      RunIsSound(scene, b, before, start, finishedAt, BackoffPeriod(), past);
      HeldIsSeenAgain(scene, b, finishedAt, BackoffPeriod(), debounce, past, sched);
    }
  }
}
