/** One reconcile pass over a node, as a function of what it observes: backoff verdicts, the
    policy's decisions, and the patches with their outcomes
    (`internal/controller/node_controller.go`). */
module ReconcilePass {
  import opened LimitRange
  import opened Policy
  import opened PodInputs

  /** Nanoseconds on the reconciler's clock. */
  type Time = int

  /** Pod key to the end of its window. */
  type Backoff = map<PodKey, Time>

  /** A listed pod, and the clock readings its judgement takes. */
  datatype Observation = Observation(view: PodView, infeasible: bool, verdictAt: Time, armAt: Time)

  datatype Outcome = Accepted | NotFound | Conflict | Forbidden | OtherError

  /** What the token bucket and the API server answer to one patch. */
  datatype Attempt = Attempt(allowed: bool, sentAt: Time, outcome: Outcome, answeredAt: Time)

  datatype Cause = Infeasible | Refused

  /** What a pass does that a backoff window is about: opening one, with its warning, or sending a
      patch. */
  datatype Event = Armed(key: PodKey, at: Time, cause: Cause) | Patched(key: PodKey, at: Time)

  // ---- Backoff verdicts ----

  /** `inBackoff`: whether a window holds the pod, and the map with an ended window dropped. */
  function Verdict(b: Backoff, key: PodKey, at: Time): (bool, Backoff) {
    if key !in b then (false, b) else if at > b[key] then (false, b - {key}) else (true, b)
  }

  // ---- Building inputs ----

  datatype Judgement = Skipped | Judged(input: PodInput) | Failed

  datatype Judging = Judging(judgement: Judgement, backoff: Backoff, events: seq<Event>)

  /** One turn of the `buildInputs` loop. */
  function JudgePod(o: Observation, b: Backoff, period: Time, past: Past): Judging {
    var v := o.view;
    if v.terminal then Judging(Skipped, b, [])
    else if !PassesGates(v) then Judging(Judged(BuildPodInput(v, false)), b, [])
    else
      var (held, b1) := Verdict(b, v.key, o.verdictAt);
      if v.namespaceLookup == LookupFailed then Judging(Failed, b1, [])
      else
        var ok := v.namespaceLookup == Enrolled && !v.vpaManaged;
        if ok && !held && o.infeasible then
          Judging(Judged(BuildPodInput(v, false).(holdsShare := true)),
                  b1[v.key := o.armAt + period], [Armed(v.key, o.armAt, Infeasible)])
        else if ok && !held then
          if v.limitRanges.None? then Judging(Failed, b1, [])
          else Judging(Judged(BuildPodInput(v, true).(limitRangeCap := CapOf(v, past))), b1, [])
        else Judging(Judged(BuildPodInput(v, false).(holdsShare := ok && held)), b1, [])
  }

  datatype Built = Built(inputs: seq<PodInput>, backoff: Backoff, events: seq<Event>, failed: bool)

  function BuildInputs(os: seq<Observation>, b: Backoff, period: Time, past: Past): Built {
    if os == [] then Built([], b, [], false)
    else
      var front := BuildInputs(os[..|os| - 1], b, period, past);
      if front.failed then front
      else
        var j := JudgePod(os[|os| - 1], front.backoff, period, past);
        match j.judgement
        case Skipped => front.(backoff := j.backoff, events := front.events + j.events)
        case Judged(input) => Built(front.inputs + [input], j.backoff, front.events + j.events, false)
        case Failed => Built(front.inputs, j.backoff, front.events + j.events, true)
  }

  // ---- Applying decisions ----

  datatype Applied = Applied(
    backoff: Backoff,
    events: seq<Event>,
    accepted: set<PodKey>,
    rateLimited: bool,
    failed: bool,
    stopped: bool)

  /** One turn of the apply loop. */
  function ApplyOne(d: Decision, attempt: Attempt, a: Applied, dryRun: bool, period: Time): Applied {
    if a.stopped || !d.apply || dryRun then a
    else if !attempt.allowed then a.(rateLimited := true, stopped := true)
    else
      var sent := a.(events := a.events + [Patched(d.key, attempt.sentAt)]);
      match attempt.outcome
      case Accepted => sent.(accepted := a.accepted + {d.key})
      case NotFound => sent
      case Conflict => sent.(rateLimited := true)
      case Forbidden =>
        sent.(backoff := a.backoff[d.key := attempt.answeredAt + period],
              events := sent.events + [Armed(d.key, attempt.answeredAt, Refused)])
      case OtherError => sent.(failed := true)
  }

  /** The attempt that answers the i-th decision; past the ones given, the bucket is empty. */
  function AttemptAt(attempts: seq<Attempt>, i: nat): Attempt {
    if i < |attempts| then attempts[i] else Attempt(false, 0, OtherError, 0)
  }

  function ApplyAll(ds: seq<Decision>, attempts: seq<Attempt>, b: Backoff, dryRun: bool, period: Time): Applied {
    if ds == [] then Applied(b, [], {}, false, false, false)
    else
      var i := |ds| - 1;
      ApplyOne(ds[i], AttemptAt(attempts, i), ApplyAll(ds[..i], attempts, b, dryRun, period), dryRun, period)
  }

  // ---- A pass ----

  datatype Pass = Pass(
    allocatable: int,
    os: seq<Observation>,
    attempts: seq<Attempt>,
    cfg: Config,
    dryRun: bool,
    judgedAt: Time)

  datatype PassResult = PassResult(built: Built, stats: NodeStats, decisions: seq<Decision>, applied: Applied)

  function RunPass(p: Pass, b: Backoff, period: Time, past: Past): PassResult {
    var built := BuildInputs(p.os, b, period, past);
    var stats := Stats(p.allocatable, built.inputs);
    var decisions := Decisions(built.inputs, stats, p.cfg);
    PassResult(built, stats, decisions,
               if built.failed then Applied(built.backoff, [], {}, false, true, true)
               else ApplyAll(decisions, p.attempts, built.backoff, p.dryRun, period))
  }

  function EndBackoff(p: Pass, b: Backoff, period: Time, past: Past): Backoff {
    RunPass(p, b, period, past).applied.backoff
  }

  function PassEvents(p: Pass, b: Backoff, period: Time, past: Past): seq<Event> {
    var r := RunPass(p, b, period, past);
    r.built.events + r.applied.events
  }

  lemma LogIsJoined(log: seq<Event>, built: seq<Event>, applied: seq<Event>)
    ensures (log + built) + applied == log + (built + applied)
    ensures applied == [] ==> log + built == log + (built + applied)
  {
  }

  /** The pods a pass can put on the requeue: every one it judged. */
  function Keys(inputs: seq<PodInput>): set<PodKey> {
    set p | p in inputs :: p.key
  }

  // ---- When the node is looked at next ----

  datatype Schedule = OnError | After(delay: Time)

  const SECOND: Time := 1_000_000_000

  /** The first of these pods' windows to end, among those open when the pass began. */
  ghost predicate IsEarliestEnd(keys: set<PodKey>, b: Backoff, judgedAt: Time, end: Time) {
    && (exists k :: k in keys && k in b && b[k] == end && end >= judgedAt)
    && (forall k :: k in keys && k in b && b[k] >= judgedAt ==> end <= b[k])
  }

  ghost predicate NoneOpen(keys: set<PodKey>, b: Backoff, judgedAt: Time) {
    forall k :: k in keys && k in b ==> b[k] < judgedAt
  }

  /** `backoffRequeue`: until the first open window ends, and a debounce more, or 0. */
  ghost predicate IsBackoffRequeue(d: Time, keys: set<PodKey>, b: Backoff, judgedAt: Time, debounce: Time) {
    if NoneOpen(keys, b, judgedAt) then d == 0
    else exists end :: IsEarliestEnd(keys, b, judgedAt, end) && d == end - judgedAt + debounce
  }

  /** What a pass asks of the work queue. */
  ghost predicate IsSchedule(sched: Schedule, p: Pass, r: PassResult, debounce: Time) {
    if r.built.failed then sched == OnError
    else IsAnswer(sched, Keys(r.built.inputs), r.applied, p.judgedAt, debounce)
  }

  ghost predicate IsAnswer(sched: Schedule, keys: set<PodKey>, a: Applied, judgedAt: Time, debounce: Time) {
    if a.failed then sched == OnError
    else if a.rateLimited then sched == After(SECOND)
    else sched.After? && IsBackoffRequeue(sched.delay, keys, a.backoff, judgedAt, debounce)
  }

  // ---- What a pass can be trusted to observe ----

  /** A key is listed once. */
  ghost predicate DistinctKeys(os: seq<Observation>) {
    forall i, j :: 0 <= i < j < |os| ==> os[i].view.key != os[j].view.key
  }

  /** Clock readings come in program order. */
  ghost predicate InOrder(p: Pass, finishedAt: Time) {
    && p.judgedAt <= finishedAt
    && (forall i :: 0 <= i < |p.os| ==> p.judgedAt <= p.os[i].verdictAt <= p.os[i].armAt <= finishedAt)
    && (forall i, j :: 0 <= i < j < |p.os| ==> p.os[i].armAt <= p.os[j].verdictAt)
    && (forall i, k :: 0 <= i < |p.os| && 0 <= k < |p.attempts| ==> p.os[i].armAt <= p.attempts[k].sentAt)
    && (forall k :: 0 <= k < |p.attempts| ==>
        p.judgedAt <= p.attempts[k].sentAt <= p.attempts[k].answeredAt <= finishedAt)
    && (forall k, l :: 0 <= k < l < |p.attempts| ==> p.attempts[k].answeredAt <= p.attempts[l].sentAt)
  }
}
