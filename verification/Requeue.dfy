/** No held pod is stranded and no wanted patch dropped: a pass that holds a pod back, or leaves a patch
    unanswered, has the node looked at again (`internal/controller/node_controller.go`). */
module Requeue {
  import opened LimitRange
  import opened Policy
  import opened ReconcilePass
  import opened BackoffRuns

  // ---- The jittered debounce ----

  /** `enqueueDelay` for a draw in [0, 1): the base, moved by up to half of itself. */
  function EnqueueDelay(base: Time, draw: real): Time {
    base + Trunc((draw - 0.5) * base as real)
  }

  lemma {:induction false} DelayIsJittered(base: Time, draw: real)
    requires base > 0 && 0.0 <= draw < 1.0
    ensures 0 < EnqueueDelay(base, draw)
    ensures base - base / 2 <= EnqueueDelay(base, draw) <= base + base / 2
  {
    var b := base as real;
    var x := (draw - 0.5) * b;
    HalfOff(draw, b, x);
    HalfOfWhole(base);
    TruncWithin(x, base / 2);
  }

  lemma DelayIs(base: Time, draw: real, jitter: real)
    requires jitter == (draw - 0.5) * base as real
    ensures EnqueueDelay(base, draw) == base + Trunc(jitter)
  {
  }

  /** The delay follows the draw: the base and that much of the jitter, to within a nanosecond. */
  lemma {:induction false} DelayFollowsDraw(base: Time, draw: real, jitter: real)
    requires base > 0 && 0.0 <= draw < 1.0 && jitter == (draw - 0.5) * base as real
    ensures -1.0 < (EnqueueDelay(base, draw) - base) as real - jitter < 1.0
  {
    DelayIs(base, draw, jitter);
    TruncIsNear(jitter);
  }

  /** ... and is no shorter for a larger draw. */
  lemma {:induction false} DelayGrows(base: Time, draw: real, larger: real)
    requires base > 0 && 0.0 <= draw <= larger < 1.0
    ensures EnqueueDelay(base, draw) <= EnqueueDelay(base, larger)
  {
    var x, y := (draw - 0.5) * base as real, (larger - 0.5) * base as real;
    DelayIs(base, draw, x);
    DelayIs(base, larger, y);
    Widen(draw - 0.5, larger - 0.5, base as real, x, y);
    TruncIsMonotone(x, y);
  }

  /** Opposite draws balance, so the base stays the mean. */
  lemma {:induction false} DelaysBalance(base: Time, draw: real)
    requires base > 0 && 0.0 < draw < 1.0
    ensures EnqueueDelay(base, draw) + EnqueueDelay(base, 1.0 - draw) == 2 * base
  {
    var x, y := (draw - 0.5) * base as real, ((1.0 - draw) - 0.5) * base as real;
    DelayIs(base, draw, x);
    DelayIs(base, 1.0 - draw, y);
    Opposite(draw - 0.5, (1.0 - draw) - 0.5, base as real);
  }

  lemma Opposite(x: real, y: real, b: real)
    requires y == -x
    ensures Trunc(y * b) == -Trunc(x * b)
  {
    assert y * b == -(x * b);
  }

  lemma TruncIsNear(x: real)
    ensures -1.0 < Trunc(x) as real - x < 1.0
  {
  }

  lemma TruncIsMonotone(x: real, y: real)
    requires x <= y
    ensures Trunc(x) <= Trunc(y)
  {
  }

  lemma Widen(x: real, y: real, b: real, p: real, q: real)
    requires x <= y && b > 0.0 && p == x * b && q == y * b
    ensures p <= q
  {
    assert (y - x) * b >= 0.0;
  }

  lemma HalfOfWhole(base: Time)
    requires base > 0
    ensures base as real / 2.0 <= (base / 2) as real + 0.5
    ensures base / 2 < base
  {
    var half := base / 2;
    assert base <= 2 * half + 1;
    assert base as real <= (2 * half + 1) as real == 2.0 * half as real + 1.0;
  }

  lemma HalfOff(draw: real, b: real, x: real)
    requires 0.0 <= draw < 1.0 && b > 0.0 && x == (draw - 0.5) * b
    ensures -b / 2.0 <= x < b / 2.0
  {
    assert draw * b >= 0.0;
    assert (1.0 - draw) * b > 0.0;
    assert (1.0 - draw) * b == b - draw * b;
    assert x == draw * b - b / 2.0;
  }

  lemma TruncWithin(x: real, half: int)
    requires half >= 0 && -(half as real) - 0.5 <= x < half as real + 0.5
    ensures -half <= Trunc(x) <= half
  {
  }

  // ---- What a pass holds back has an open window ----

  ghost predicate OpenSince(b: Backoff, k: PodKey, start: Time) {
    k in b && b[k] >= start
  }

  lemma JudgeHolds(o: Observation, b: Backoff, start: Time, period: Time, past: Past)
    requires start <= o.verdictAt <= o.armAt && period > 0
    ensures var j := JudgePod(o, b, period, past);
      && (j.judgement.Judged? && j.judgement.input.holdsShare ==>
            !j.judgement.input.managed && OpenSince(j.backoff, o.view.key, start))
      && (forall e :: e in j.events ==> j.judgement.Judged? && j.judgement.input.holdsShare && e.key == o.view.key)
  {
  }

  ghost predicate HoldsAreOpen(inputs: seq<PodInput>, b: Backoff, start: Time) {
    forall p :: p in inputs && p.holdsShare ==> !p.managed && OpenSince(b, p.key, start)
  }

  ghost predicate IsHeld(inputs: seq<PodInput>, key: PodKey) {
    exists p :: p in inputs && p.holdsShare && p.key == key
  }

  ghost predicate EventsAreHeld(events: seq<Event>, inputs: seq<PodInput>) {
    forall e :: e in events ==> IsHeld(inputs, e.key)
  }

  /** The inputs once one more pod has been judged. */
  function Extended(inputs: seq<PodInput>, j: Judgement): seq<PodInput> {
    if j.Judged? then inputs + [j.input] else inputs
  }

  lemma HoldsStayOpen(inputs: seq<PodInput>, o: Observation, b: Backoff, start: Time, period: Time, past: Past)
    requires start <= o.verdictAt <= o.armAt && period > 0
    requires HoldsAreOpen(inputs, b, start) && forall p :: p in inputs ==> p.key != o.view.key
    ensures var j := JudgePod(o, b, period, past); HoldsAreOpen(Extended(inputs, j.judgement), j.backoff, start)
  {
    JudgeTouchesOne(o, b, period, past);
    JudgeHolds(o, b, start, period, past);
  }

  lemma EventsStayHeld(events: seq<Event>, inputs: seq<PodInput>, o: Observation, b: Backoff, start: Time, period: Time,
                       past: Past)
    requires start <= o.verdictAt <= o.armAt && period > 0 && EventsAreHeld(events, inputs)
    ensures var j := JudgePod(o, b, period, past); EventsAreHeld(events + j.events, Extended(inputs, j.judgement))
  {
    var j := JudgePod(o, b, period, past);
    var after := Extended(inputs, j.judgement);
    JudgeTouchesOne(o, b, period, past);
    JudgeHolds(o, b, start, period, past);
    forall e | e in events + j.events ensures IsHeld(after, e.key) {
      if e in events {
        var p :| p in inputs && p.holdsShare && p.key == e.key;
        assert p in after;
      } else {
        assert j.judgement.input in after;
      }
    }
  }

  /** A pod that holds its share has a window that was open when the pass began, and every window the
      build loop opens belongs to such a pod. */
  lemma {:induction false} BuildHolds(os: seq<Observation>, b: Backoff, start: Time, period: Time, past: Past)
    requires OsInOrder(os, start) && DistinctKeys(os) && period > 0
    ensures var built := BuildInputs(os, b, period, past);
      HoldsAreOpen(built.inputs, built.backoff, start) && EventsAreHeld(built.events, built.inputs)
  {
    if os != [] {
      var front, o := os[..|os| - 1], os[|os| - 1];
      BuildHolds(front, b, start, period, past);
      var before := BuildInputs(front, b, period, past);
      if !before.failed {
        BuildShape(front, b, period, past);
        KeysOfFront(before.inputs, os);
        HoldsStayOpen(before.inputs, o, before.backoff, start, period, past);
        EventsStayHeld(before.events, before.inputs, o, before.backoff, start, period, past);
      }
    }
  }

  ghost predicate Refusal(a: Applied, e: Event, start: Time) {
    e.Armed? ==> OpenSince(a.backoff, e.key, start)
  }

  /** Every refusal leaves its pod's window open, and is of a pod that was decided on. */
  lemma {:induction false} ApplyHolds(ds: seq<Decision>, attempts: seq<Attempt>, b: Backoff, start: Time, dryRun: bool,
                                      period: Time)
    requires DecisionKeysDistinct(ds) && AttemptsInOrder(attempts, start) && period > 0
    ensures var a := ApplyAll(ds, attempts, b, dryRun, period);
      forall e :: e in a.events ==> Refusal(a, e, start) && exists i :: 0 <= i < |ds| && ds[i].key == e.key
  {
    if ds != [] {
      var n := |ds| - 1;
      ApplyHolds(ds[..n], attempts, b, start, dryRun, period);
      var before, attempt := ApplyAll(ds[..n], attempts, b, dryRun, period), AttemptAt(attempts, n);
      ApplyTouchesOne(ds[n], attempt, before, dryRun, period);
      var a := ApplyAll(ds, attempts, b, dryRun, period);
      forall e | e in a.events ensures Refusal(a, e, start) && exists i :: 0 <= i < |ds| && ds[i].key == e.key {
        if e in before.events {
          var i :| 0 <= i < n && ds[..n][i].key == e.key;
          assert ds[i].key == e.key && ds[i].key != ds[n].key;
        } else {
          assert ds[n].key == e.key;
        }
      }
    }
  }

  /** A pod a pass holds back: one that kept its share without a target, or whose window the pass
      opened. */
  ghost predicate HeldBack(r: PassResult, k: PodKey) {
    || (exists p :: p in r.built.inputs && p.holdsShare && p.key == k)
    || (exists e :: e in r.built.events + r.applied.events && e.Armed? && e.key == k)
  }

  lemma RefusedIsOpen(p: Pass, b: Backoff, finishedAt: Time, period: Time, past: Past, e: Event)
    requires InOrder(p, finishedAt) && DistinctKeys(p.os) && period > 0
    requires var r := RunPass(p, b, period, past); !r.built.failed && e in r.applied.events && e.Armed?
    ensures var r := RunPass(p, b, period, past);
      e.key in Keys(r.built.inputs) && OpenSince(r.applied.backoff, e.key, p.judgedAt)
  {
    var r := RunPass(p, b, period, past);
    BuildShape(p.os, b, period, past);
    PassDecisionsAreFree(p, b, period, past);
    ApplyHolds(r.decisions, p.attempts, r.built.backoff, p.judgedAt, p.dryRun, period);
    DecisionKeys(r.built.inputs, r.stats, p.cfg);
    var i :| 0 <= i < |r.decisions| && r.decisions[i].key == e.key;
    var n := ManagedAt(r.built.inputs, e.key);
  }

  lemma HolderIsOpen(p: Pass, b: Backoff, finishedAt: Time, period: Time, past: Past, q: PodInput)
    requires InOrder(p, finishedAt) && DistinctKeys(p.os) && period > 0
    requires var r := RunPass(p, b, period, past); !r.built.failed && q in r.built.inputs && q.holdsShare
    ensures var r := RunPass(p, b, period, past);
      q.key in Keys(r.built.inputs) && OpenSince(r.applied.backoff, q.key, p.judgedAt)
  {
    var r := RunPass(p, b, period, past);
    BuildHolds(p.os, b, p.judgedAt, period, past);
    BuildShape(p.os, b, period, past);
    HolderIsNotDecided(r.built.inputs, r.stats, p.cfg, q);
    ApplyTouchesDecided(r.decisions, p.attempts, r.built.backoff, p.dryRun, period, q.key);
  }

  lemma HeldBackIsOpen(p: Pass, b: Backoff, finishedAt: Time, period: Time, past: Past, k: PodKey)
    requires InOrder(p, finishedAt) && DistinctKeys(p.os) && period > 0
    requires var r := RunPass(p, b, period, past); !r.built.failed && HeldBack(r, k)
    ensures var r := RunPass(p, b, period, past);
      k in Keys(r.built.inputs) && OpenSince(r.applied.backoff, k, p.judgedAt)
  {
    var r := RunPass(p, b, period, past);
    if q :| q in r.built.inputs && q.holdsShare && q.key == k {
      HolderIsOpen(p, b, finishedAt, period, past, q);
    } else {
      var e :| e in r.built.events + r.applied.events && e.Armed? && e.key == k;
      BuildHolds(p.os, b, p.judgedAt, period, past);
      assert e !in r.built.events;
      RefusedIsOpen(p, b, finishedAt, period, past, e);
    }
  }

  lemma HolderIsNotDecided(inputs: seq<PodInput>, s: NodeStats, cfg: Config, q: PodInput)
    requires s.managedRequests > 0 ==> s.managedPods > 0
    requires InputKeysDistinct(inputs) && q in inputs && !q.managed
    ensures forall i :: 0 <= i < |Decisions(inputs, s, cfg)| ==> Decisions(inputs, s, cfg)[i].key != q.key
  {
    DecisionKeys(inputs, s, cfg);
    var n :| 0 <= n < |inputs| && inputs[n] == q;
    forall i | 0 <= i < |Decisions(inputs, s, cfg)| ensures Decisions(inputs, s, cfg)[i].key != q.key {
      var m := ManagedAt(inputs, Decisions(inputs, s, cfg)[i].key);
      assert m != n;
    }
  }

  /** A pass that holds a pod back is never the last word on its node: it fails, it comes back in a
      second, or it comes back strictly after the first open window ends and no later than a debounce
      after this pod's own. */
  lemma HeldPodIsRequeued(p: Pass, b: Backoff, finishedAt: Time, period: Time, debounce: Time, past: Past,
                          sched: Schedule, k: PodKey)
    requires InOrder(p, finishedAt) && DistinctKeys(p.os) && period > 0 && debounce > 0
    requires HeldBack(RunPass(p, b, period, past), k)
    requires IsSchedule(sched, p, RunPass(p, b, period, past), debounce)
    ensures var r := RunPass(p, b, period, past);
      || sched == OnError
      || sched == After(SECOND)
      || (&& sched.After? && k in r.applied.backoff
          && p.judgedAt + sched.delay <= r.applied.backoff[k] + debounce
          && exists end :: IsEarliestEnd(Keys(r.built.inputs), r.applied.backoff, p.judgedAt, end)
                           && p.judgedAt + sched.delay > end)
  {
    var r := RunPass(p, b, period, past);
    if !r.built.failed {
      HeldBackIsOpen(p, b, finishedAt, period, past, k);
    }
  }

  // ---- A patch that was wanted ----

  /** What became of a wanted patch: it was accepted, its pod is gone, it was refused and its pod backs
      off, or the pass says it has more to do. */
  ghost predicate Answered(a: Applied, key: PodKey, attempt: Attempt) {
    || a.rateLimited || a.failed
    || key in a.accepted
    || attempt.outcome == NotFound
    || exists e :: e in a.events && e.Armed? && e.key == key
  }

  lemma AnsweredStays(a: Applied, d: Decision, attempt: Attempt, period: Time, key: PodKey, earlier: Attempt)
    requires Answered(a, key, earlier)
    ensures Answered(ApplyOne(d, attempt, a, false, period), key, earlier)
  {
    var after := ApplyOne(d, attempt, a, false, period);
    if e :| e in a.events && e.Armed? && e.key == key {
      assert e in after.events;
    }
  }

  lemma NewlyAnswered(a: Applied, d: Decision, attempt: Attempt, period: Time)
    requires d.apply && (a.stopped ==> a.rateLimited)
    ensures Answered(ApplyOne(d, attempt, a, false, period), d.key, attempt)
  {
    var after := ApplyOne(d, attempt, a, false, period);
    if !a.stopped && attempt.allowed && attempt.outcome == Forbidden {
      assert after.events[|after.events| - 1] == Armed(d.key, attempt.answeredAt, Refused);
    }
  }

  lemma {:induction false} EveryWishIsAnswered(ds: seq<Decision>, attempts: seq<Attempt>, b: Backoff, period: Time)
    ensures var a := ApplyAll(ds, attempts, b, false, period);
      && (a.stopped ==> a.rateLimited)
      && forall i :: 0 <= i < |ds| && ds[i].apply ==> Answered(a, ds[i].key, AttemptAt(attempts, i))
  {
    if ds != [] {
      var n := |ds| - 1;
      EveryWishIsAnswered(ds[..n], attempts, b, period);
      var before := ApplyAll(ds[..n], attempts, b, false, period);
      forall i | 0 <= i < |ds| && ds[i].apply
        ensures Answered(ApplyAll(ds, attempts, b, false, period), ds[i].key, AttemptAt(attempts, i))
      {
        if i < n {
          assert ds[..n][i] == ds[i];
          AnsweredStays(before, ds[n], AttemptAt(attempts, n), period, ds[i].key, AttemptAt(attempts, i));
        } else {
          NewlyAnswered(before, ds[n], AttemptAt(attempts, n), period);
        }
      }
    }
  }

  /** No wanted patch is dropped: outside dry run it is accepted, its pod is gone or backs off, or the
      node is looked at again, in a second where the bucket ran dry or a patch conflicted, and with the
      work queue's own backoff where one failed. */
  lemma NoWishIsDropped(p: Pass, b: Backoff, period: Time, debounce: Time, past: Past, sched: Schedule, i: nat)
    requires !p.dryRun && IsSchedule(sched, p, RunPass(p, b, period, past), debounce)
    requires var r := RunPass(p, b, period, past); !r.built.failed && i < |r.decisions| && r.decisions[i].apply
    ensures var r := RunPass(p, b, period, past);
      || sched == OnError
      || sched == After(SECOND)
      || r.decisions[i].key in r.applied.accepted
      || AttemptAt(p.attempts, i).outcome == NotFound
      || exists e :: e in r.applied.events && e.Armed? && e.key == r.decisions[i].key
  {
    var r := RunPass(p, b, period, past);
    EveryWishIsAnswered(r.decisions, p.attempts, r.built.backoff, period);
  }

  /** Dry run sends nothing and opens no window. */
  lemma {:induction false} DryRunSendsNothing(ds: seq<Decision>, attempts: seq<Attempt>, b: Backoff, period: Time)
    ensures ApplyAll(ds, attempts, b, true, period) == Applied(b, [], {}, false, false, false)
  {
    if ds != [] {
      DryRunSendsNothing(ds[..|ds| - 1], attempts, b, period);
    }
  }
}
