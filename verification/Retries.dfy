/** Every held pod is retried: over the visits to its node, whoever asks for them and whatever other
    pods and nodes do meanwhile (`internal/controller/node_controller.go`). */
module Retries {
  import opened Policy
  import opened LimitRange
  import opened PodInputs
  import opened ReconcilePass
  import opened BackoffRuns
  import opened Requeue
  import opened Sets

  // ---- What passes do to a window ----

  /** A window is as it was, or was opened since and lasts a period. */
  ghost predicate KeptOrNew(b: Backoff, after: Backoff, start: Time, period: Time) {
    forall k :: k in after ==> (k in b && after[k] == b[k]) || after[k] >= start + period
  }

  lemma JudgeKeptOrNew(o: Observation, b: Backoff, now: Backoff, start: Time, period: Time, past: Past)
    requires start <= o.verdictAt <= o.armAt && KeptOrNew(b, now, start, period)
    ensures KeptOrNew(b, JudgePod(o, now, period, past).backoff, start, period)
  {
    var j := JudgePod(o, now, period, past);
    JudgeTouchesOne(o, now, period, past);
    var key := o.view.key;
    assert key in j.backoff ==> (key in now && j.backoff[key] == now[key]) || j.backoff[key] == o.armAt + period;
  }

  lemma {:induction false} BuildKeptOrNew(os: seq<Observation>, b: Backoff, start: Time, period: Time, past: Past)
    requires OsInOrder(os, start)
    ensures KeptOrNew(b, BuildInputs(os, b, period, past).backoff, start, period)
  {
    if os != [] {
      var front, o := os[..|os| - 1], os[|os| - 1];
      BuildKeptOrNew(front, b, start, period, past);
      JudgeKeptOrNew(o, b, BuildInputs(front, b, period, past).backoff, start, period, past);
    }
  }

  lemma {:induction false} ApplyKeptOrNew(ds: seq<Decision>, attempts: seq<Attempt>, b: Backoff, start: Time,
                                          dryRun: bool, period: Time)
    requires AttemptsInOrder(attempts, start)
    ensures KeptOrNew(b, ApplyAll(ds, attempts, b, dryRun, period).backoff, start, period)
  {
    if ds != [] {
      ApplyKeptOrNew(ds[..|ds| - 1], attempts, b, start, dryRun, period);
    }
  }

  lemma PassKeptOrNew(p: Pass, b: Backoff, finishedAt: Time, period: Time, past: Past)
    requires InOrder(p, finishedAt)
    ensures KeptOrNew(b, EndBackoff(p, b, period, past), p.judgedAt, period)
  {
    var r := RunPass(p, b, period, past);
    BuildKeptOrNew(p.os, b, p.judgedAt, period, past);
    if !r.built.failed {
      ApplyKeptOrNew(r.decisions, p.attempts, r.built.backoff, p.judgedAt, p.dryRun, period);
    }
  }

  /** No window lasts longer than a period from now. */
  ghost predicate WithinPeriod(b: Backoff, now: Time, period: Time) {
    forall k :: k in b ==> b[k] <= now + period
  }

  lemma JudgeWithinPeriod(o: Observation, b: Backoff, finishedAt: Time, period: Time, past: Past)
    requires WithinPeriod(b, finishedAt, period) && o.armAt <= finishedAt
    ensures WithinPeriod(JudgePod(o, b, period, past).backoff, finishedAt, period)
  {
  }

  lemma {:induction false} BuildWithinPeriod(os: seq<Observation>, b: Backoff, finishedAt: Time, period: Time,
                                             past: Past)
    requires WithinPeriod(b, finishedAt, period) && forall i :: 0 <= i < |os| ==> os[i].armAt <= finishedAt
    ensures WithinPeriod(BuildInputs(os, b, period, past).backoff, finishedAt, period)
  {
    if os != [] {
      var front, o := os[..|os| - 1], os[|os| - 1];
      BuildWithinPeriod(front, b, finishedAt, period, past);
      JudgeWithinPeriod(o, BuildInputs(front, b, period, past).backoff, finishedAt, period, past);
    }
  }

  lemma {:induction false} ApplyWithinPeriod(ds: seq<Decision>, attempts: seq<Attempt>, b: Backoff, finishedAt: Time,
                                             dryRun: bool, period: Time)
    requires WithinPeriod(b, finishedAt, period)
    requires forall k :: 0 <= k < |attempts| ==> attempts[k].answeredAt <= finishedAt
    ensures WithinPeriod(ApplyAll(ds, attempts, b, dryRun, period).backoff, finishedAt, period)
  {
    if ds != [] {
      ApplyWithinPeriod(ds[..|ds| - 1], attempts, b, finishedAt, dryRun, period);
    }
  }

  lemma PassWithinPeriod(p: Pass, b: Backoff, finishedAt: Time, period: Time, past: Past)
    requires InOrder(p, finishedAt) && WithinPeriod(b, p.judgedAt, period)
    ensures WithinPeriod(EndBackoff(p, b, period, past), finishedAt, period)
  {
    var r := RunPass(p, b, period, past);
    BuildWithinPeriod(p.os, b, finishedAt, period, past);
    if !r.built.failed {
      ApplyWithinPeriod(r.decisions, p.attempts, r.built.backoff, finishedAt, p.dryRun, period);
    }
  }

  /** In the map any run of passes builds up from an empty one, no window outlasts a period. */
  lemma {:induction false} RunWithinPeriod(passes: seq<Timed>, start: Time, period: Time, past: Past)
    requires RunInOrder(passes, start)
    ensures WithinPeriod(RunBackoff(passes, map[], period, past), RunEnd(passes, start), period)
  {
    if passes != [] {
      var front, last := passes[..|passes| - 1], passes[|passes| - 1];
      RunWithinPeriod(front, start, period, past);
      PassWithinPeriod(last.pass, RunBackoff(front, map[], period, past), last.finishedAt, period, past);
    }
  }

  ghost predicate Lists(p: Pass, k: PodKey) {
    exists i :: 0 <= i < |p.os| && p.os[i].view.key == k
  }

  /** What other nodes' passes do between two visits to the pod's: its window is left alone, and any other
      is kept or opened since. */
  ghost predicate Meanwhile(after: Backoff, k: PodKey, next: Backoff, start: Time, period: Time) {
    SameWindow(k, after, next) && KeptOrNew(after, next, start, period)
  }

  lemma PassLeavesOthers(p: Pass, b: Backoff, finishedAt: Time, period: Time, past: Past, k: PodKey)
    requires InOrder(p, finishedAt) && DistinctKeys(p.os) && !Lists(p, k)
    ensures SameWindow(k, b, EndBackoff(p, b, period, past))
  {
    var r := RunPass(p, b, period, past);
    OthersBuilt(p.os, 0, b, period, past, k);
    assert p.os[..0] == [];
    if !r.built.failed {
      BuildShape(p.os, b, period, past);
      DecisionKeys(r.built.inputs, r.stats, p.cfg);
      forall i | 0 <= i < |r.decisions| ensures r.decisions[i].key != k {
        var n := ManagedAt(r.built.inputs, r.decisions[i].key);
        assert r.built.inputs[n] in r.built.inputs;
      }
      ApplyTouchesDecided(r.decisions, p.attempts, r.built.backoff, p.dryRun, period, k);
    }
  }

  /** Any run of passes over other nodes is such a meanwhile. */
  lemma {:induction false} OtherNodesMeanwhile(passes: seq<Timed>, b: Backoff, start: Time, period: Time, past: Past,
                                               k: PodKey)
    requires RunInOrder(passes, start) && forall i :: 0 <= i < |passes| ==> !Lists(passes[i].pass, k)
    ensures Meanwhile(b, k, RunBackoff(passes, b, period, past), start, period)
  {
    if passes != [] {
      var front, last := passes[..|passes| - 1], passes[|passes| - 1];
      OtherNodesMeanwhile(front, b, start, period, past, k);
      PassLeavesOthers(last.pass, RunBackoff(front, b, period, past), last.finishedAt, period, past, k);
      PassKeptOrNew(last.pass, RunBackoff(front, b, period, past), last.finishedAt, period, past);
    }
  }

  // ---- Visits to a pod's node ----

  /** A pass over the pod's node, the map it found, and what it asked of the work queue. */
  datatype Visit = Visit(pass: Pass, finishedAt: Time, before: Backoff, sched: Schedule, debounce: Time)

  ghost function ResultOf(v: Visit, period: Time, past: Past): PassResult {
    RunPass(v.pass, v.before, period, past)
  }

  ghost function LeftBy(v: Visit, period: Time, past: Past): Backoff {
    EndBackoff(v.pass, v.before, period, past)
  }

  ghost predicate IsVisit(v: Visit, k: PodKey, period: Time, past: Past) {
    && InOrder(v.pass, v.finishedAt) && DistinctKeys(v.pass.os) && Lists(v.pass, k) && v.debounce > 0
    && IsSchedule(v.sched, v.pass, ResultOf(v, period, past), v.debounce)
  }

  ghost predicate Fails(v: Visit, period: Time, past: Past) {
    ResultOf(v, period, past).built.failed
  }

  /** What the next visit may be: later, at the latest when the last one asked for it, or at any time after
      where that one failed. Anything may bring it on earlier. */
  ghost predicate Follows(v: Visit, w: Visit, k: PodKey, period: Time, past: Past) {
    && v.pass.judgedAt < w.pass.judgedAt && v.finishedAt <= w.pass.judgedAt
    && (v.sched.After? && v.sched.delay > 0 ==> w.pass.judgedAt <= v.finishedAt + v.sched.delay)
    && Meanwhile(LeftBy(v, period, past), k, w.before, v.finishedAt, period)
  }

  ghost predicate AreVisits(visits: seq<Visit>, k: PodKey, period: Time, past: Past) {
    visits != [] ==>
      var front, last := visits[..|visits| - 1], visits[|visits| - 1];
      && IsVisit(last, k, period, past) && AreVisits(front, k, period, past)
      && (front != [] ==> Follows(front[|front| - 1], last, k, period, past))
  }

  // ---- What a visit does with a pod whose window it finds ended ----

  /** It decides on the pod, finds it infeasible and opens a new window, or finds that it no longer shares
      the node's slack. */
  ghost predicate Retried(v: Visit, k: PodKey, period: Time, past: Past) {
    var r := ResultOf(v, period, past);
    || (exists i :: 0 <= i < |v.pass.os| && v.pass.os[i].view.key == k && !SharesSlack(v.pass.os[i].view))
    || (exists e :: e in r.built.events && e.Armed? && e.key == k)
    || (!r.built.failed && exists d :: d in r.decisions && d.key == k)
  }

  /** The pod has the window that ends at `u`, or none. */
  ghost predicate Waiting(b: Backoff, k: PodKey, u: Time) {
    k in b ==> b[k] == u
  }

  lemma JudgedInWaiting(o: Observation, b: Backoff, u: Time, period: Time, past: Past)
    requires SharesSlack(o.view) && Waiting(b, o.view.key, u)
    ensures var j := JudgePod(o, b, period, past);
      || (j.judgement.Failed? && o.view.key !in j.backoff)
      || (exists e :: e in j.events && e.Armed? && e.key == o.view.key)
      || (j.judgement.Judged? && j.judgement.input.managed && j.judgement.input.key == o.view.key
          && o.view.key !in j.backoff)
      || (&& j.judgement.Judged? && j.judgement.input.holdsShare && j.judgement.input.key == o.view.key
          && o.verdictAt <= u && o.view.key in j.backoff && j.backoff[o.view.key] == u)
  {
    var (held, b1) := Verdict(b, o.view.key, o.verdictAt);
    if !held && o.infeasible {
      assert Armed(o.view.key, o.armAt, Infeasible) in JudgePod(o, b, period, past).events;
    }
  }

  ghost predicate IsManaged(inputs: seq<PodInput>, k: PodKey) {
    exists p :: p in inputs && p.managed && p.key == k
  }

  lemma LastIsIn(inputs: seq<PodInput>, p: PodInput)
    ensures p.managed ==> IsManaged(inputs + [p], p.key)
    ensures p.holdsShare ==> IsHeld(inputs + [p], p.key)
  {
    assert p in inputs + [p];
  }

  /** The build loop up to and with the pod. */
  lemma BuiltWithPod(v: Visit, i: nat, k: PodKey, u: Time, period: Time, past: Past)
    requires IsVisit(v, k, period, past) && Waiting(v.before, k, u) && i < |v.pass.os| && v.pass.os[i].view.key == k
    requires !Retried(v, k, period, past)
    ensures var built := BuildInputs(v.pass.os[..i + 1], v.before, period, past);
      && Waiting(built.backoff, k, u)
      && (built.failed
          || IsManaged(built.inputs, k)
          || (&& IsHeld(built.inputs, k)
              && v.pass.judgedAt <= u && k in built.backoff && built.backoff[k] == u))
  {
    var os, o := v.pass.os, v.pass.os[i];
    var before, built := BuildInputs(os[..i], v.before, period, past), BuildInputs(os[..i + 1], v.before, period, past);
    assert os[..i + 1][..i] == os[..i] && os[..i][..0] == [];
    OthersBuilt(os[..i], 0, v.before, period, past, k);
    OthersBuilt(os, i + 1, v.before, period, past, k);
    if !before.failed {
      JudgedInWaiting(o, before.backoff, u, period, past);
      var j := JudgePod(o, before.backoff, period, past);
      if j.judgement.Judged? {
        assert built.inputs == before.inputs + [j.judgement.input];
        LastIsIn(before.inputs, j.judgement.input);
      }
      assert built.events == before.events + j.events;
    }
  }

  /** A visit that does not retry the pod fails, or finds its window open and leaves it so. */
  lemma VisitOutcome(v: Visit, k: PodKey, u: Time, period: Time, past: Past)
    requires IsVisit(v, k, period, past) && Waiting(v.before, k, u) && !Retried(v, k, period, past)
    ensures Waiting(LeftBy(v, period, past), k, u)
    ensures !Fails(v, period, past) ==>
      && v.pass.judgedAt <= u && HeldBack(ResultOf(v, period, past), k)
      && k in LeftBy(v, period, past) && LeftBy(v, period, past)[k] == u
  {
    var r := ResultOf(v, period, past);
    var i :| 0 <= i < |v.pass.os| && v.pass.os[i].view.key == k;
    BuiltWithPod(v, i, k, u, period, past);
    OthersBuilt(v.pass.os, i + 1, v.before, period, past, k);
    if !r.built.failed {
      if p :| p in r.built.inputs && p.managed && p.key == k {
        DecisionsCover(r.built.inputs, r.stats, v.pass.cfg, Decide(p, r.stats, v.pass.cfg));
        assert false;
      }
      var p :| p in r.built.inputs && p.holdsShare && p.key == k;
      BuildShape(v.pass.os, v.before, period, past);
      HolderIsNotDecided(r.built.inputs, r.stats, v.pass.cfg, p);
      ApplyTouchesDecided(r.decisions, v.pass.attempts, r.built.backoff, v.pass.dryRun, period, k);
    }
  }

  /** ... and it asks for another. */
  ghost predicate AsksAgain(v: Visit) {
    v.sched == OnError || (v.sched.After? && v.sched.delay > 0)
  }

  lemma VisitAsksAgain(v: Visit, k: PodKey, u: Time, period: Time, past: Past)
    requires IsVisit(v, k, period, past) && Waiting(v.before, k, u) && !Retried(v, k, period, past) && period > 0
    ensures AsksAgain(v)
    ensures || v.sched == OnError || v.sched == After(SECOND)
            || v.pass.judgedAt + v.sched.delay <= u + v.debounce
  {
    VisitOutcome(v, k, u, period, past);
    if !Fails(v, period, past) {
      HeldPodIsRequeued(v.pass, v.before, v.finishedAt, period, v.debounce, past, v.sched, k);
    }
  }

  // ---- Runs of visits ----

  ghost predicate NeverRetried(visits: seq<Visit>, k: PodKey, period: Time, past: Past) {
    visits != [] ==>
      !Retried(visits[|visits| - 1], k, period, past) && NeverRetried(visits[..|visits| - 1], k, period, past)
  }

  lemma {:induction false} SomeRetried(visits: seq<Visit>, k: PodKey, period: Time, past: Past) returns (m: nat)
    requires !NeverRetried(visits, k, period, past)
    ensures m < |visits| && Retried(visits[m], k, period, past)
  {
    m := |visits| - 1;
    if !Retried(visits[m], k, period, past) {
      m := SomeRetried(visits[..m], k, period, past);
    }
  }

  lemma {:induction false} StillWaiting(visits: seq<Visit>, k: PodKey, u: Time, period: Time, past: Past)
    requires AreVisits(visits, k, period, past) && visits != [] && Waiting(visits[0].before, k, u)
    requires NeverRetried(visits[..|visits| - 1], k, period, past)
    ensures Waiting(visits[|visits| - 1].before, k, u)
    ensures visits[0].pass.judgedAt + |visits| - 1 <= visits[|visits| - 1].pass.judgedAt
  {
    var front := visits[..|visits| - 1];
    if front != [] {
      assert front[0] == visits[0] && front[|front| - 1] == visits[|visits| - 2];
      StillWaiting(front, k, u, period, past);
      NextWaits(visits, k, u, period, past);
    }
  }

  lemma {:induction false} NextWaits(visits: seq<Visit>, k: PodKey, u: Time, period: Time, past: Past)
    requires AreVisits(visits, k, period, past) && |visits| >= 2
    requires Waiting(visits[|visits| - 2].before, k, u) && !Retried(visits[|visits| - 2], k, period, past)
    ensures Waiting(visits[|visits| - 1].before, k, u)
    ensures visits[|visits| - 2].pass.judgedAt < visits[|visits| - 1].pass.judgedAt
  {
    var front := visits[..|visits| - 1];
    assert front[|front| - 1] == visits[|visits| - 2] && AreVisits(front, k, period, past);
    VisitOutcome(visits[|visits| - 2], k, u, period, past);
  }

  lemma {:induction false} VisitsStop(visits: seq<Visit>, n: nat, k: PodKey, period: Time, past: Past)
    requires AreVisits(visits, k, period, past) && n <= |visits|
    ensures AreVisits(visits[..n], k, period, past)
    decreases |visits|
  {
    if n == |visits| {
      assert visits[..n] == visits;
    } else {
      var front := visits[..|visits| - 1];
      VisitsStop(front, n, k, period, past);
      assert front[..n] == visits[..n];
    }
  }

  lemma {:induction false} VisitsUpTo(visits: seq<Visit>, n: nat, k: PodKey, period: Time, past: Past)
    returns (sofar: seq<Visit>)
    requires AreVisits(visits, k, period, past) && n < |visits|
    ensures AreVisits(sofar, k, period, past) && |sofar| == n + 1 && forall m :: 0 <= m <= n ==> sofar[m] == visits[m]
  {
    VisitsStop(visits, n + 1, k, period, past);
    sofar := visits[..n + 1];
  }

  lemma {:induction false} LastVisitRetries(visits: seq<Visit>, k: PodKey, u: Time, period: Time, past: Past)
    requires AreVisits(visits, k, period, past) && visits != [] && period > 0 && Waiting(visits[0].before, k, u)
    requires var last := visits[|visits| - 1];
      (last.pass.judgedAt > u && !Fails(last, period, past)) || !AsksAgain(last)
    ensures !NeverRetried(visits, k, period, past)
  {
    var last := visits[|visits| - 1];
    if NeverRetried(visits, k, period, past) {
      StillWaiting(visits, k, u, period, past);
      VisitOutcome(last, k, u, period, past);
      VisitAsksAgain(last, k, u, period, past);
    }
  }

  /** By the first visit that begins after the window has ended and does not fail, and by any at which the
      work queue is asked for nothing more, the pod has been retried. */
  lemma {:induction false} HeldPodIsRetried(visits: seq<Visit>, n: nat, k: PodKey, u: Time, period: Time, past: Past)
    requires AreVisits(visits, k, period, past) && n < |visits| && period > 0 && Waiting(visits[0].before, k, u)
    requires (visits[n].pass.judgedAt > u && !Fails(visits[n], period, past)) || !AsksAgain(visits[n])
    ensures exists m :: 0 <= m <= n && Retried(visits[m], k, period, past)
  {
    var sofar := VisitsUpTo(visits, n, k, period, past);
    LastVisitRetries(sofar, k, u, period, past);
    var m := SomeRetried(sofar, k, period, past);
  }

  /** The run gets there: where visits go on as they are asked for, one begins after the window has ended,
      and unless that one fails to read what it needs the pod has been retried by it; and where they do
      not go on, it has been retried by the last. */
  lemma {:induction false} RetryComes(visits: seq<Visit>, k: PodKey, u: Time, period: Time, past: Past)
    requires AreVisits(visits, k, period, past) && visits != [] && period > 0 && Waiting(visits[0].before, k, u)
    requires |visits| > u - visits[0].pass.judgedAt + 1 || !AsksAgain(visits[|visits| - 1])
    ensures var last := visits[|visits| - 1];
      || (exists m :: 0 <= m < |visits| && Retried(visits[m], k, period, past))
      || (last.pass.judgedAt > u && Fails(last, period, past) && last.sched == OnError)
  {
    var last := visits[|visits| - 1];
    if NeverRetried(visits, k, period, past) {
      StillWaiting(visits, k, u, period, past);
      if !AsksAgain(last) || !Fails(last, period, past) {
        LastVisitRetries(visits, k, u, period, past);
      }
    } else {
      var m := SomeRetried(visits, k, period, past);
    }
  }

  /** How late it can be: after a visit that leaves the pod held and does not fail, the next begins within
      a second of its end, or by the end of the window, a debounce, and as long as the visit took. */
  lemma NextVisitIsPrompt(v: Visit, w: Visit, k: PodKey, u: Time, period: Time, past: Past)
    requires IsVisit(v, k, period, past) && Waiting(v.before, k, u) && !Retried(v, k, period, past) && period > 0
    requires Follows(v, w, k, period, past) && v.sched != OnError
    ensures || w.pass.judgedAt <= v.finishedAt + SECOND
            || w.pass.judgedAt <= u + v.debounce + (v.finishedAt - v.pass.judgedAt)
  {
    VisitAsksAgain(v, k, u, period, past);
  }

  /** The first visit that begins after the window. */
  lemma FirstAfter(visits: seq<Visit>, u: Time) returns (f: nat)
    requires visits != [] && visits[0].pass.judgedAt <= u < visits[|visits| - 1].pass.judgedAt
    ensures 0 < f < |visits| && visits[f].pass.judgedAt > u
    ensures forall m :: 0 <= m < f ==> visits[m].pass.judgedAt <= u
  {
    f := 1;
    while visits[f].pass.judgedAt <= u
      invariant 0 < f < |visits| && forall m :: 0 <= m < f ==> visits[m].pass.judgedAt <= u
      decreases |visits| - f
    {
      f := f + 1;
    }
  }

  /** Where no visit takes longer than `longest`, waits out a debounce over `slack` or ends in an error, the
      pod is retried by the end of its window and as much again as the longest visit and the larger of a
      second and that debounce. */
  lemma {:induction false} RetryIsPrompt(visits: seq<Visit>, k: PodKey, u: Time, longest: Time, slack: Time,
                                         period: Time, past: Past)
    requires AreVisits(visits, k, period, past) && visits != [] && period > 0 && Waiting(visits[0].before, k, u)
    requires visits[0].pass.judgedAt <= u < visits[|visits| - 1].pass.judgedAt
    requires forall m :: 0 <= m < |visits| ==> IsBrisk(visits[m], longest, slack)
    ensures exists m :: 0 <= m < |visits| && Retried(visits[m], k, period, past)
                        && visits[m].pass.judgedAt <= u + longest + Max(SECOND, slack)
  {
    var m := PromptVisit(visits, k, u, longest, slack, period, past);
  }

  lemma {:induction false} PromptVisit(visits: seq<Visit>, k: PodKey, u: Time, longest: Time, slack: Time, period: Time,
                                       past: Past)
    returns (m: nat)
    requires AreVisits(visits, k, period, past) && visits != [] && period > 0 && Waiting(visits[0].before, k, u)
    requires visits[0].pass.judgedAt <= u < visits[|visits| - 1].pass.judgedAt
    requires forall i :: 0 <= i < |visits| ==> IsBrisk(visits[i], longest, slack)
    ensures m < |visits| && Retried(visits[m], k, period, past)
    ensures visits[m].pass.judgedAt <= u + longest + Max(SECOND, slack)
  {
    var f := FirstAfter(visits, u);
    m := RetriedOrWaiting(visits, f - 1, k, u, period, past);
    if m < f {
      assert visits[m].pass.judgedAt <= u && IsBrisk(visits[m], longest, slack);
      BriskIsPositive(visits, m, longest, slack, k, period, past);
    } else {
      var sofar := VisitsUpTo(visits, f, k, period, past);
      LateRunRetries(sofar, k, u, longest, slack, period, past);
    }
  }

  /** A visit up to the n-th that retried the pod; past it where there is none. */
  lemma {:induction false} RetriedOrWaiting(visits: seq<Visit>, n: nat, k: PodKey, u: Time, period: Time, past: Past)
    returns (m: nat)
    requires AreVisits(visits, k, period, past) && n < |visits| && Waiting(visits[0].before, k, u)
    ensures m <= n + 1
    ensures if m <= n then Retried(visits[m], k, period, past)
            else Waiting(visits[n].before, k, u) && !Retried(visits[n], k, period, past)
  {
    m := n + 1;
    var front := VisitsUpTo(visits, n, k, period, past);
    if NeverRetried(front, k, period, past) {
      StillWaiting(front, k, u, period, past);
      assert front[n] == visits[n];
    } else {
      m := SomeRetried(front, k, period, past);
      assert visits[m] == front[m];
    }
  }

  ghost predicate IsBrisk(v: Visit, longest: Time, slack: Time) {
    v.sched != OnError && v.finishedAt - v.pass.judgedAt <= longest && v.debounce <= slack
  }

  lemma {:induction false} BriskIsPositive(visits: seq<Visit>, m: nat, longest: Time, slack: Time, k: PodKey,
                                           period: Time, past: Past)
    requires AreVisits(visits, k, period, past) && m < |visits| && IsBrisk(visits[m], longest, slack)
    ensures longest >= 0 && slack > 0
  {
    var upTo := VisitsUpTo(visits, m, k, period, past);
    assert upTo[|upTo| - 1] == visits[m] && IsVisit(upTo[|upTo| - 1], k, period, past);
  }

  lemma LateVisitRetries(v: Visit, w: Visit, k: PodKey, u: Time, longest: Time, slack: Time, period: Time, past: Past)
    requires IsVisit(v, k, period, past) && Waiting(v.before, k, u) && !Retried(v, k, period, past) && period > 0
    requires Follows(v, w, k, period, past) && IsVisit(w, k, period, past)
    requires IsBrisk(v, longest, slack) && v.pass.judgedAt <= u < w.pass.judgedAt && w.sched != OnError
    ensures Retried(w, k, period, past) && w.pass.judgedAt <= u + longest + Max(SECOND, slack)
  {
    NextVisitIsPrompt(v, w, k, u, period, past);
    VisitOutcome(v, k, u, period, past);
    if !Retried(w, k, period, past) {
      VisitOutcome(w, k, u, period, past);
    }
  }

  lemma {:induction false} LateRunRetries(visits: seq<Visit>, k: PodKey, u: Time, longest: Time, slack: Time,
                                          period: Time, past: Past)
    requires AreVisits(visits, k, period, past) && |visits| >= 2 && period > 0
    requires var v, w := visits[|visits| - 2], visits[|visits| - 1];
      && Waiting(v.before, k, u) && !Retried(v, k, period, past) && IsBrisk(v, longest, slack)
      && v.pass.judgedAt <= u < w.pass.judgedAt && w.sched != OnError
    ensures var w := visits[|visits| - 1];
      Retried(w, k, period, past) && w.pass.judgedAt <= u + longest + Max(SECOND, slack)
  {
    var front := visits[..|visits| - 1];
    assert front[|front| - 1] == visits[|visits| - 2] && AreVisits(front, k, period, past);
    LateVisitRetries(visits[|visits| - 2], visits[|visits| - 1], k, u, longest, slack, period, past);
  }

  // ---- How many visits it takes ----

  /** Windows open now that end before this pod's. */
  ghost function OpenBefore(b: Backoff, now: Time, u: Time): set<PodKey> {
    set k | k in b && now <= b[k] < u
  }

  /** The first visit succeeds and the second begins after the first window it was to wait for. */
  ghost predicate OnTime(v: Visit, w: Visit, period: Time, past: Past) {
    && !Fails(v, period, past)
    && var keys := Keys(ResultOf(v, period, past).built.inputs);
       exists end :: IsEarliestEnd(keys, LeftBy(v, period, past), v.pass.judgedAt, end) && w.pass.judgedAt > end
  }

  /** The work queue's own timer for a held pod is on time. */
  lemma TimerIsOnTime(v: Visit, w: Visit, k: PodKey, u: Time, period: Time, past: Past)
    requires IsVisit(v, k, period, past) && Waiting(v.before, k, u) && !Retried(v, k, period, past) && period > 0
    requires v.sched.After? && v.sched != After(SECOND) && w.pass.judgedAt >= v.pass.judgedAt + v.sched.delay
    ensures OnTime(v, w, period, past)
  {
    VisitOutcome(v, k, u, period, past);
    HeldPodIsRequeued(v.pass, v.before, v.finishedAt, period, v.debounce, past, v.sched, k);
  }

  ghost function OnTimeCount(visits: seq<Visit>, period: Time, past: Past): nat {
    if |visits| < 2 then 0
    else
      var n := |visits| - 1;
      OnTimeCount(visits[..n], period, past) + (if OnTime(visits[n - 1], visits[n], period, past) then 1 else 0)
  }

  lemma WindowsOnlyEnd(v: Visit, w: Visit, k: PodKey, u: Time, period: Time, past: Past)
    requires IsVisit(v, k, period, past) && Follows(v, w, k, period, past) && u <= v.pass.judgedAt + period
    ensures OpenBefore(w.before, w.pass.judgedAt, u) <= OpenBefore(v.before, v.pass.judgedAt, u)
  {
    PassKeptOrNew(v.pass, v.before, v.finishedAt, period, past);
  }

  lemma OnTimeEndsOne(v: Visit, w: Visit, k: PodKey, u: Time, period: Time, past: Past)
    requires IsVisit(v, k, period, past) && Follows(v, w, k, period, past) && u <= v.pass.judgedAt + period
    requires Waiting(v.before, k, u) && !Retried(v, k, period, past) && period > 0
    requires OnTime(v, w, period, past) && w.pass.judgedAt <= u
    ensures OpenBefore(w.before, w.pass.judgedAt, u) < OpenBefore(v.before, v.pass.judgedAt, u)
  {
    var keys, left := Keys(ResultOf(v, period, past).built.inputs), LeftBy(v, period, past);
    WindowsOnlyEnd(v, w, k, u, period, past);
    PassKeptOrNew(v.pass, v.before, v.finishedAt, period, past);
    var end :| IsEarliestEnd(keys, left, v.pass.judgedAt, end) && w.pass.judgedAt > end;
    var first :| first in keys && first in left && left[first] == end && end >= v.pass.judgedAt;
    assert first in OpenBefore(v.before, v.pass.judgedAt, u);
    assert first !in OpenBefore(w.before, w.pass.judgedAt, u);
  }

  lemma {:induction false} OnTimeVisitsCount(visits: seq<Visit>, k: PodKey, u: Time, period: Time, past: Past)
    requires AreVisits(visits, k, period, past) && visits != [] && period > 0
    requires Waiting(visits[0].before, k, u) && u <= visits[0].pass.judgedAt + period
    requires NeverRetried(visits[..|visits| - 1], k, period, past)
    ensures var first, last := visits[0], visits[|visits| - 1];
      OnTimeCount(visits, period, past) + |OpenBefore(last.before, last.pass.judgedAt, u)|
        <= |OpenBefore(first.before, first.pass.judgedAt, u)| + (if last.pass.judgedAt > u then 1 else 0)
  {
    var n := |visits| - 1;
    var front := visits[..n];
    if front != [] {
      assert front[0] == visits[0] && front[n - 1] == visits[n - 1];
      OnTimeVisitsCount(front, k, u, period, past);
      StillWaiting(front, k, u, period, past);
      LastVisitCounts(visits, k, u, period, past);
    }
  }

  lemma {:induction false} LastVisitCounts(visits: seq<Visit>, k: PodKey, u: Time, period: Time, past: Past)
    requires AreVisits(visits, k, period, past) && |visits| >= 2 && period > 0
    requires var v := visits[|visits| - 2];
      Waiting(v.before, k, u) && !Retried(v, k, period, past) && u <= v.pass.judgedAt + period
    ensures var v, w := visits[|visits| - 2], visits[|visits| - 1];
      (if OnTime(v, w, period, past) then 1 else 0) + |OpenBefore(w.before, w.pass.judgedAt, u)|
        + (if v.pass.judgedAt > u then 1 else 0)
      <= |OpenBefore(v.before, v.pass.judgedAt, u)| + (if w.pass.judgedAt > u then 1 else 0)
  {
    var front := visits[..|visits| - 1];
    assert front[|front| - 1] == visits[|visits| - 2] && AreVisits(front, k, period, past);
    OneMoreVisit(visits[|visits| - 2], visits[|visits| - 1], k, u, period, past);
  }

  lemma OneMoreVisit(v: Visit, w: Visit, k: PodKey, u: Time, period: Time, past: Past)
    requires IsVisit(v, k, period, past) && Follows(v, w, k, period, past) && u <= v.pass.judgedAt + period
    requires Waiting(v.before, k, u) && !Retried(v, k, period, past) && period > 0
    ensures (if OnTime(v, w, period, past) then 1 else 0) + |OpenBefore(w.before, w.pass.judgedAt, u)|
              + (if v.pass.judgedAt > u then 1 else 0)
            <= |OpenBefore(v.before, v.pass.judgedAt, u)| + (if w.pass.judgedAt > u then 1 else 0)
  {
    WindowsOnlyEnd(v, w, k, u, period, past);
    SubsetSize(OpenBefore(w.before, w.pass.judgedAt, u), OpenBefore(v.before, v.pass.judgedAt, u));
    if OnTime(v, w, period, past) {
      VisitOutcome(v, k, u, period, past);
      if w.pass.judgedAt <= u {
        OnTimeEndsOne(v, w, k, u, period, past);
        SmallerSet(OpenBefore(w.before, w.pass.judgedAt, u), OpenBefore(v.before, v.pass.judgedAt, u));
      }
    }
  }

  /** Of the visits that wait out the first window to end, at most as many go by before the pod is retried
      as there are windows that end before its own, and one more. New windows, on any node, do not add to
      them, for none ends before it. */
  lemma {:induction false} OnTimeVisitsAreFew(visits: seq<Visit>, k: PodKey, u: Time, period: Time, past: Past)
    requires AreVisits(visits, k, period, past) && visits != [] && period > 0
    requires k in visits[0].before && visits[0].before[k] == u
    requires WithinPeriod(visits[0].before, visits[0].pass.judgedAt, period)
    requires NeverRetried(visits[..|visits| - 1], k, period, past)
    ensures OnTimeCount(visits, period, past) <= |OpenBefore(visits[0].before, visits[0].pass.judgedAt, u)| + 1
  {
    OnTimeVisitsCount(visits, k, u, period, past);
  }
}
