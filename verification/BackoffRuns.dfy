/** Backoff over whole runs: a refused pod is left alone for its window, however passes, pods and
    outcomes interleave (`internal/controller/node_controller.go`). */
module BackoffRuns {
  import opened LimitRange
  import opened Policy
  import opened ReconcilePass

  // ---- The invariant ----

  /** Every window opened so far is still in the map, or over by now. */
  ghost predicate Guarded(b: Backoff, events: seq<Event>, now: Time, period: Time) {
    forall i :: 0 <= i < |events| && events[i].Armed? ==>
      || (events[i].key in b && b[events[i].key] >= events[i].at + period)
      || now > events[i].at + period
  }

  /** After a window opens, nothing is sent to its pod and no other window opens for it until the
      window has ended. */
  ghost predicate Spaced(events: seq<Event>, period: Time) {
    forall i, j :: 0 <= i < j < |events| && events[i].Armed? && events[i].key == events[j].key ==>
      events[j].at > events[i].at + period
  }

  ghost predicate Sound(b: Backoff, events: seq<Event>, now: Time, period: Time) {
    Guarded(b, events, now, period) && Spaced(events, period)
  }

  lemma TimePasses(b: Backoff, events: seq<Event>, now: Time, later: Time, period: Time)
    requires Sound(b, events, now, period) && now <= later
    ensures Sound(b, events, later, period)
  {
  }

  lemma VerdictKeepsSound(b: Backoff, events: seq<Event>, now: Time, at: Time, key: PodKey, period: Time)
    requires Sound(b, events, now, period) && now <= at
    ensures Sound(Verdict(b, key, at).1, events, at, period)
  {
  }

  /** An event for a pod that no window holds. */
  lemma FreeEventIsSound(b: Backoff, events: seq<Event>, now: Time, e: Event, period: Time)
    requires Sound(b, events, now, period) && now <= e.at && e.key !in b && e.Patched?
    ensures Sound(b, events + [e], e.at, period)
  {
  }

  lemma ArmIsSound(b: Backoff, events: seq<Event>, now: Time, e: Event, period: Time)
    requires Sound(b, events, now, period) && now <= e.at && e.key !in b && e.Armed?
    ensures Sound(b[e.key := e.at + period], events + [e], e.at, period)
  {
    var b', events' := b[e.key := e.at + period], events + [e];
    forall i | 0 <= i < |events'| && events'[i].Armed?
      ensures (events'[i].key in b' && b'[events'[i].key] >= events'[i].at + period) || e.at > events'[i].at + period
    {
      if i < |events| {
        assert events'[i] == events[i];
      }
    }
  }

  // ---- The build loop ----

  /** When the build loop is done with these pods. */
  function BuiltBy(os: seq<Observation>, start: Time): Time {
    if os == [] then start else os[|os| - 1].armAt
  }

  ghost predicate OsInOrder(os: seq<Observation>, start: Time) {
    && (forall i :: 0 <= i < |os| ==> start <= os[i].verdictAt <= os[i].armAt)
    && (forall i, j :: 0 <= i < j < |os| ==> os[i].armAt <= os[j].verdictAt)
  }

  /** Managed pods are not in the map: their windows, if any, had ended. */
  ghost predicate ManagedAreFree(inputs: seq<PodInput>, b: Backoff) {
    forall p :: p in inputs && p.managed ==> p.key !in b
  }

  lemma JudgeKeepsSound(o: Observation, b: Backoff, log: seq<Event>, now: Time, period: Time, past: Past)
    requires Sound(b, log, now, period) && now <= o.verdictAt <= o.armAt
    ensures var j := JudgePod(o, b, period, past); Sound(j.backoff, log + j.events, o.armAt, period)
  {
    var v := o.view;
    var (held, b1) := Verdict(b, v.key, o.verdictAt);
    VerdictKeepsSound(b, log, now, o.verdictAt, v.key, period);
    TimePasses(b, log, now, o.armAt, period);
    TimePasses(b1, log, o.verdictAt, o.armAt, period);
    assert log + [] == log;
    if !held {
      ArmIsSound(b1, log, o.verdictAt, Armed(v.key, o.armAt, Infeasible), period);
    }
  }

  /** A judgement touches its own pod's window only, and a managed pod has none. */
  lemma JudgeTouchesOne(o: Observation, b: Backoff, period: Time, past: Past)
    ensures var j := JudgePod(o, b, period, past);
      && (j.judgement.Judged? ==> j.judgement.input.key == o.view.key)
      && (j.judgement.Judged? && j.judgement.input.managed ==> o.view.key !in j.backoff)
      && (forall k :: k != o.view.key ==> (k in j.backoff <==> k in b))
      && (forall k :: k != o.view.key && k in b ==> j.backoff[k] == b[k])
  {
  }

  lemma {:induction false} BuildKeepsSound(os: seq<Observation>, b: Backoff, log: seq<Event>, start: Time,
                                           period: Time, past: Past)
    requires Sound(b, log, start, period) && OsInOrder(os, start)
    ensures var built := BuildInputs(os, b, period, past);
            Sound(built.backoff, log + built.events, BuiltBy(os, start), period)
  {
    if os == [] {
      assert log + [] == log;
    } else {
      var front, o := os[..|os| - 1], os[|os| - 1];
      BuildKeepsSound(front, b, log, start, period, past);
      var before := BuildInputs(front, b, period, past);
      if before.failed {
        TimePasses(before.backoff, log + before.events, BuiltBy(front, start), o.armAt, period);
      } else {
        JudgeExtendsLog(o, before.backoff, log, before.events, BuiltBy(front, start), period, past);
      }
    }
  }

  lemma JudgeExtendsLog(o: Observation, b: Backoff, log: seq<Event>, es: seq<Event>, now: Time, period: Time,
                        past: Past)
    requires Sound(b, log + es, now, period) && now <= o.verdictAt <= o.armAt
    ensures var j := JudgePod(o, b, period, past); Sound(j.backoff, log + (es + j.events), o.armAt, period)
  {
    JudgeKeepsSound(o, b, log + es, now, period, past);
    assert (log + es) + JudgePod(o, b, period, past).events == log + (es + JudgePod(o, b, period, past).events);
  }

  ghost predicate KeysFrom(inputs: seq<PodInput>, os: seq<Observation>) {
    forall p :: p in inputs ==> exists i :: 0 <= i < |os| && os[i].view.key == p.key
  }

  ghost predicate InputKeysDistinct(inputs: seq<PodInput>) {
    forall i, j :: 0 <= i < j < |inputs| ==> inputs[i].key != inputs[j].key
  }

  /** One more judged pod, of a new key, without a window if it is managed. */
  lemma OneMoreInput(inputs: seq<PodInput>, b: Backoff, input: PodInput, after: Backoff)
    requires InputKeysDistinct(inputs) && ManagedAreFree(inputs, b)
    requires forall p :: p in inputs ==> p.key != input.key
    requires forall k :: k != input.key ==> (k in after <==> k in b)
    requires input.managed ==> input.key !in after
    ensures InputKeysDistinct(inputs + [input]) && ManagedAreFree(inputs + [input], after)
  {
  }

  /** Inputs are the listed pods, once each, and no window holds a managed one. */
  lemma {:induction false} BuildShape(os: seq<Observation>, b: Backoff, period: Time, past: Past)
    requires DistinctKeys(os)
    ensures var built := BuildInputs(os, b, period, past);
      KeysFrom(built.inputs, os) && InputKeysDistinct(built.inputs) && ManagedAreFree(built.inputs, built.backoff)
  {
    if os != [] {
      var front, o := os[..|os| - 1], os[|os| - 1];
      BuildShape(front, b, period, past);
      var before := BuildInputs(front, b, period, past);
      KeysOfFront(before.inputs, os);
      if !before.failed {
        var j := JudgePod(o, before.backoff, period, past);
        JudgeTouchesOne(o, before.backoff, period, past);
        assert os[|os| - 1].view.key == o.view.key;
        if j.judgement.Judged? {
          OneMoreInput(before.inputs, before.backoff, j.judgement.input, j.backoff);
        } else {
          assert forall p :: p in before.inputs && p.managed ==> p.key != o.view.key;
        }
      }
    }
  }

  lemma KeysOfFront(inputs: seq<PodInput>, os: seq<Observation>)
    requires os != [] && DistinctKeys(os) && KeysFrom(inputs, os[..|os| - 1])
    ensures KeysFrom(inputs, os)
    ensures forall p :: p in inputs ==> p.key != os[|os| - 1].view.key
  {
    forall p | p in inputs
      ensures p.key != os[|os| - 1].view.key && exists i :: 0 <= i < |os| && os[i].view.key == p.key
    {
      var i :| 0 <= i < |os| - 1 && os[..|os| - 1][i].view.key == p.key;
      assert os[i].view.key == p.key;
    }
  }

  // ---- The apply loop ----

  /** The pod's window, or that it has none, is the same in both. */
  ghost predicate SameWindow(k: PodKey, b: Backoff, after: Backoff) {
    (k in after <==> k in b) && (k in b ==> after[k] == b[k])
  }

  /** Once the loop is past a pod, its window stays as it was left, and what was built stays built. */
  lemma {:induction false} OthersBuilt(os: seq<Observation>, n: nat, b: Backoff, period: Time, past: Past, k: PodKey)
    requires n <= |os| && forall i :: n <= i < |os| ==> os[i].view.key != k
    ensures var early, built := BuildInputs(os[..n], b, period, past), BuildInputs(os, b, period, past);
      && SameWindow(k, early.backoff, built.backoff)
      && (early.failed ==> built == early)
      && (forall e :: e in early.events ==> e in built.events)
      && (forall p :: p in early.inputs ==> p in built.inputs)
    decreases |os|
  {
    if n == |os| {
      assert os[..n] == os;
    } else {
      var front, o := os[..|os| - 1], os[|os| - 1];
      OthersBuilt(front, n, b, period, past, k);
      assert front[..n] == os[..n];
      JudgeTouchesOne(o, BuildInputs(front, b, period, past).backoff, period, past);
    }
  }

  ghost predicate AttemptsInOrder(attempts: seq<Attempt>, start: Time) {
    && (forall k :: 0 <= k < |attempts| ==> start <= attempts[k].sentAt <= attempts[k].answeredAt)
    && (forall k, l :: 0 <= k < l < |attempts| ==> attempts[k].answeredAt <= attempts[l].sentAt)
  }

  function AppliedBy(attempts: seq<Attempt>, n: nat, start: Time): Time {
    if n == 0 || |attempts| == 0 then start
    else if n <= |attempts| then attempts[n - 1].answeredAt else attempts[|attempts| - 1].answeredAt
  }

  lemma PatchIsSound(b: Backoff, log: seq<Event>, es: seq<Event>, now: Time, sent: Event, later: Time, period: Time)
    requires Sound(b, log + es, now, period) && now <= sent.at <= later && sent.key !in b && sent.Patched?
    ensures Sound(b, log + (es + [sent]), later, period)
  {
    FreeEventIsSound(b, log + es, now, sent, period);
    assert (log + es) + [sent] == log + (es + [sent]);
    TimePasses(b, log + (es + [sent]), sent.at, later, period);
  }

  lemma RefusalIsSound(b: Backoff, log: seq<Event>, es: seq<Event>, now: Time, armed: Event, period: Time)
    requires Sound(b, log + es, now, period) && now <= armed.at && armed.key !in b && armed.Armed?
    ensures Sound(b[armed.key := armed.at + period], log + (es + [armed]), armed.at, period)
  {
    ArmIsSound(b, log + es, now, armed, period);
    assert (log + es) + [armed] == log + (es + [armed]);
  }

  lemma ApplyOneKeepsSound(d: Decision, attempt: Attempt, a: Applied, log: seq<Event>, now: Time, dryRun: bool,
                           period: Time)
    requires Sound(a.backoff, log + a.events, now, period)
    requires attempt.allowed ==> now <= attempt.sentAt <= attempt.answeredAt
    requires d.key !in a.backoff
    ensures var after := ApplyOne(d, attempt, a, dryRun, period);
            Sound(after.backoff, log + after.events, if attempt.allowed then attempt.answeredAt else now, period)
  {
    if attempt.allowed {
      var sent, armed := Patched(d.key, attempt.sentAt), Armed(d.key, attempt.answeredAt, Refused);
      TimePasses(a.backoff, log + a.events, now, attempt.answeredAt, period);
      PatchIsSound(a.backoff, log, a.events, now, sent, attempt.answeredAt, period);
      RefusalIsSound(a.backoff, log, a.events + [sent], attempt.answeredAt, armed, period);
    }
  }

  lemma ApplyTouchesOne(d: Decision, attempt: Attempt, a: Applied, dryRun: bool, period: Time)
    ensures var after := ApplyOne(d, attempt, a, dryRun, period);
      && (forall k :: k != d.key ==> (k in after.backoff <==> k in a.backoff))
      && (forall k :: k != d.key && k in a.backoff ==> after.backoff[k] == a.backoff[k])
  {
  }

  ghost predicate DecisionKeysDistinct(ds: seq<Decision>) {
    forall i, j :: 0 <= i < j < |ds| ==> ds[i].key != ds[j].key
  }

  /** The loop opens windows for the pods it decides on, and no others. */
  lemma {:induction false} ApplyTouchesDecided(ds: seq<Decision>, attempts: seq<Attempt>, b: Backoff, dryRun: bool,
                                               period: Time, k: PodKey)
    requires forall i :: 0 <= i < |ds| ==> ds[i].key != k
    ensures var a := ApplyAll(ds, attempts, b, dryRun, period);
            (k in a.backoff <==> k in b) && (k in b ==> a.backoff[k] == b[k])
  {
    if ds != [] {
      var n := |ds| - 1;
      ApplyTouchesDecided(ds[..n], attempts, b, dryRun, period, k);
      ApplyTouchesOne(ds[n], AttemptAt(attempts, n), ApplyAll(ds[..n], attempts, b, dryRun, period), dryRun, period);
    }
  }

  lemma {:induction false} ApplyKeepsSound(ds: seq<Decision>, attempts: seq<Attempt>, b: Backoff, log: seq<Event>,
                                           start: Time, dryRun: bool, period: Time)
    requires Sound(b, log, start, period) && AttemptsInOrder(attempts, start)
    requires DecisionKeysDistinct(ds) && forall i :: 0 <= i < |ds| ==> ds[i].key !in b
    ensures var a := ApplyAll(ds, attempts, b, dryRun, period);
            Sound(a.backoff, log + a.events, AppliedBy(attempts, |ds|, start), period)
  {
    if ds == [] {
      assert log + [] == log;
    } else {
      var n := |ds| - 1;
      ApplyKeepsSound(ds[..n], attempts, b, log, start, dryRun, period);
      ApplyTouchesDecided(ds[..n], attempts, b, dryRun, period, ds[n].key);
      var a, attempt := ApplyAll(ds[..n], attempts, b, dryRun, period), AttemptAt(attempts, n);
      var now := AppliedBy(attempts, n, start);
      ApplyOneKeepsSound(ds[n], attempt, a, log, now, dryRun, period);
      var after := ApplyOne(ds[n], attempt, a, dryRun, period);
      TimePasses(after.backoff, log + after.events, if attempt.allowed then attempt.answeredAt else now,
                 AppliedBy(attempts, n + 1, start), period);
    }
  }

  // ---- A pass, and a run of passes ----

  ghost predicate IsManagedKey(inputs: seq<PodInput>, key: PodKey) {
    exists k :: 0 <= k < |inputs| && inputs[k].managed && inputs[k].key == key
  }

  lemma ManagedAt(inputs: seq<PodInput>, key: PodKey) returns (k: nat)
    requires IsManagedKey(inputs, key)
    ensures k < |inputs| && inputs[k].managed && inputs[k].key == key && inputs[k] in inputs
  {
    k :| 0 <= k < |inputs| && inputs[k].managed && inputs[k].key == key;
  }

  /** Decisions are on managed pods, once each. */
  lemma FrontKeyStays(inputs: seq<PodInput>, key: PodKey)
    requires inputs != [] && InputKeysDistinct(inputs) && IsManagedKey(inputs[..|inputs| - 1], key)
    ensures IsManagedKey(inputs, key) && key != inputs[|inputs| - 1].key
  {
    var k := ManagedAt(inputs[..|inputs| - 1], key);
    assert inputs[k] == inputs[..|inputs| - 1][k];
  }

  lemma {:induction false} DecisionKeys(inputs: seq<PodInput>, s: NodeStats, cfg: Config)
    requires s.managedRequests > 0 ==> s.managedPods > 0
    requires InputKeysDistinct(inputs)
    ensures DecisionKeysDistinct(Decisions(inputs, s, cfg))
    ensures forall i :: 0 <= i < |Decisions(inputs, s, cfg)| ==> IsManagedKey(inputs, Decisions(inputs, s, cfg)[i].key)
  {
    if inputs != [] {
      var front, last := inputs[..|inputs| - 1], inputs[|inputs| - 1];
      DecisionKeys(front, s, cfg);
      var ds, all := Decisions(front, s, cfg), Decisions(inputs, s, cfg);
      forall i | 0 <= i < |ds| ensures IsManagedKey(inputs, ds[i].key) && ds[i].key != last.key {
        FrontKeyStays(inputs, ds[i].key);
      }
      if last.managed {
        assert inputs[|inputs| - 1].managed && inputs[|inputs| - 1].key == all[|ds|].key;
      }
    }
  }

  lemma ManagedDecisionsAreFree(inputs: seq<PodInput>, b: Backoff, s: NodeStats, cfg: Config)
    requires s.managedRequests > 0 ==> s.managedPods > 0
    requires InputKeysDistinct(inputs) && ManagedAreFree(inputs, b)
    ensures forall i :: 0 <= i < |Decisions(inputs, s, cfg)| ==> Decisions(inputs, s, cfg)[i].key !in b
  {
    DecisionKeys(inputs, s, cfg);
    forall i | 0 <= i < |Decisions(inputs, s, cfg)| ensures Decisions(inputs, s, cfg)[i].key !in b {
      var k := ManagedAt(inputs, Decisions(inputs, s, cfg)[i].key);
    }
  }

  /** What a pass decides on: listed pods, once each, that no window holds. */
  lemma PassDecisionsAreFree(p: Pass, b: Backoff, period: Time, past: Past)
    requires DistinctKeys(p.os)
    ensures var r := RunPass(p, b, period, past);
      DecisionKeysDistinct(r.decisions) && forall i :: 0 <= i < |r.decisions| ==> r.decisions[i].key !in r.built.backoff
  {
    var r := RunPass(p, b, period, past);
    BuildShape(p.os, b, period, past);
    ManagedDecisionsAreFree(r.built.inputs, r.built.backoff, r.stats, p.cfg);
    DecisionKeys(r.built.inputs, r.stats, p.cfg);
  }

  lemma BuildPhaseKeepsSound(p: Pass, b: Backoff, log: seq<Event>, start: Time, finishedAt: Time, period: Time,
                             past: Past)
    requires Sound(b, log, start, period) && start <= p.judgedAt && InOrder(p, finishedAt)
    ensures var built := BuildInputs(p.os, b, period, past);
            Sound(built.backoff, log + built.events, BuiltBy(p.os, p.judgedAt), period)
    ensures AttemptsInOrder(p.attempts, BuiltBy(p.os, p.judgedAt)) && BuiltBy(p.os, p.judgedAt) <= finishedAt
    ensures forall n: nat :: AppliedBy(p.attempts, n, BuiltBy(p.os, p.judgedAt)) <= finishedAt
  {
    TimePasses(b, log, start, p.judgedAt, period);
    BuildKeepsSound(p.os, b, log, p.judgedAt, period, past);
  }

  /** A pass, whatever it observes and whatever it is answered, keeps every open window. */
  lemma PassKeepsSound(p: Pass, b: Backoff, log: seq<Event>, start: Time, finishedAt: Time, period: Time, past: Past)
    requires Sound(b, log, start, period) && start <= p.judgedAt
    requires InOrder(p, finishedAt) && DistinctKeys(p.os)
    ensures Sound(EndBackoff(p, b, period, past), log + PassEvents(p, b, period, past), finishedAt, period)
  {
    var r := RunPass(p, b, period, past);
    BuildPhaseKeepsSound(p, b, log, start, finishedAt, period, past);
    var log1, built := log + r.built.events, BuiltBy(p.os, p.judgedAt);
    LogIsJoined(log, r.built.events, r.applied.events);
    if r.built.failed {
      TimePasses(r.built.backoff, log1, built, finishedAt, period);
    } else {
      PassDecisionsAreFree(p, b, period, past);
      ApplyPhaseKeepsSound(r.decisions, p.attempts, r.built.backoff, log1, built, finishedAt, p.dryRun, period);
    }
  }

  lemma ApplyPhaseKeepsSound(ds: seq<Decision>, attempts: seq<Attempt>, b: Backoff, log: seq<Event>, start: Time,
                             finishedAt: Time, dryRun: bool, period: Time)
    requires Sound(b, log, start, period) && AttemptsInOrder(attempts, start)
    requires forall n: nat :: AppliedBy(attempts, n, start) <= finishedAt
    requires DecisionKeysDistinct(ds) && forall i :: 0 <= i < |ds| ==> ds[i].key !in b
    ensures var a := ApplyAll(ds, attempts, b, dryRun, period); Sound(a.backoff, log + a.events, finishedAt, period)
  {
    var a := ApplyAll(ds, attempts, b, dryRun, period);
    ApplyKeepsSound(ds, attempts, b, log, start, dryRun, period);
    TimePasses(a.backoff, log + a.events, AppliedBy(attempts, |ds|, start), finishedAt, period);
  }

  /** A pass and when it ended. */
  datatype Timed = Timed(pass: Pass, finishedAt: Time)

  ghost predicate RunInOrder(passes: seq<Timed>, start: Time) {
    && (forall i :: 0 <= i < |passes| ==>
        InOrder(passes[i].pass, passes[i].finishedAt) && DistinctKeys(passes[i].pass.os))
    && (forall i :: 0 <= i < |passes| ==> start <= passes[i].pass.judgedAt)
    && (forall i, j :: 0 <= i < j < |passes| ==> passes[i].finishedAt <= passes[j].pass.judgedAt)
  }

  function RunBackoff(passes: seq<Timed>, b: Backoff, period: Time, past: Past): Backoff {
    if passes == [] then b
    else EndBackoff(passes[|passes| - 1].pass, RunBackoff(passes[..|passes| - 1], b, period, past), period, past)
  }

  /** Everything a run of passes did about backoff, in order. */
  function RunEvents(passes: seq<Timed>, b: Backoff, period: Time, past: Past): seq<Event> {
    if passes == [] then []
    else
      var front := passes[..|passes| - 1];
      RunEvents(front, b, period, past)
        + PassEvents(passes[|passes| - 1].pass, RunBackoff(front, b, period, past), period, past)
  }

  function RunEnd(passes: seq<Timed>, start: Time): Time {
    if passes == [] then start else passes[|passes| - 1].finishedAt
  }

  lemma {:induction false} RunKeepsSound(passes: seq<Timed>, b: Backoff, start: Time, period: Time, past: Past)
    requires RunInOrder(passes, start)
    ensures var after, log := RunBackoff(passes, b, period, past), RunEvents(passes, b, period, past);
      Sound(after, log, RunEnd(passes, start), period)
  {
    if passes != [] {
      var front, last := passes[..|passes| - 1], passes[|passes| - 1];
      RunKeepsSound(front, b, start, period, past);
      PassKeepsSound(last.pass, RunBackoff(front, b, period, past), RunEvents(front, b, period, past),
                     RunEnd(front, start), last.finishedAt, period, past);
    }
  }

  /** Over any run of passes over any nodes, from any backoff map: once a pod is refused or reads as
      infeasible, no patch is sent to it, and no further warning is raised for it, until more than a
      backoff period later. */
  lemma NothingInsideAWindow(passes: seq<Timed>, b: Backoff, start: Time, period: Time, past: Past, i: nat, j: nat)
    requires RunInOrder(passes, start)
    requires i < j < |RunEvents(passes, b, period, past)|
    requires var events := RunEvents(passes, b, period, past); events[i].Armed? && events[i].key == events[j].key
    ensures var events := RunEvents(passes, b, period, past); events[j].at > events[i].at + period
  {
    RunKeepsSound(passes, b, start, period, past);
  }
}
