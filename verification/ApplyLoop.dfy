/** What the apply loop does with a pass's decisions, one by one: which patches it sends, in which order,
    and what each answer leads to (`internal/controller/node_controller.go`). */
module ApplyLoop {
  import opened LimitRange
  import opened Policy
  import opened ReconcilePass
  import opened BackoffRuns

  // ---- Which decisions are sent ----

  /** Up to this decision the bucket has admitted every patch that was wanted. */
  ghost predicate Reached(ds: seq<Decision>, attempts: seq<Attempt>, i: nat) {
    forall j :: 0 <= j <= i && j < |ds| && ds[j].apply ==> AttemptAt(attempts, j).allowed
  }

  /** The i-th decision wants a patch, and the loop gets to it with a token. */
  ghost predicate Sent(ds: seq<Decision>, attempts: seq<Attempt>, i: nat) {
    i < |ds| && ds[i].apply && Reached(ds, attempts, i)
  }

  /** Some patch that was sent had this outcome. */
  ghost predicate Met(ds: seq<Decision>, attempts: seq<Attempt>, outcome: Outcome) {
    exists i: nat :: Sent(ds, attempts, i) && AttemptAt(attempts, i).outcome == outcome
  }

  /** The bucket has run dry on a patch that was wanted. */
  ghost predicate RanDry(ds: seq<Decision>, attempts: seq<Attempt>) {
    exists i :: 0 <= i < |ds| && ds[i].apply && !AttemptAt(attempts, i).allowed
  }

  lemma SentInFront(ds: seq<Decision>, attempts: seq<Attempt>, n: nat, i: nat)
    requires i < n <= |ds|
    ensures Sent(ds[..n], attempts, i) <==> Sent(ds, attempts, i)
  {
    assert forall j :: 0 <= j <= i ==> ds[..n][j] == ds[j];
  }

  lemma LastIsSent(ds: seq<Decision>, attempts: seq<Attempt>)
    requires ds != []
    ensures var n := |ds| - 1;
      Sent(ds, attempts, n) <==> ds[n].apply && AttemptAt(attempts, n).allowed && !RanDry(ds[..n], attempts)
  {
    var n := |ds| - 1;
    if Sent(ds, attempts, n) {
      assert forall j :: 0 <= j < n ==> ds[..n][j] == ds[j];
    }
    if !RanDry(ds[..n], attempts) {
      forall j | 0 <= j < n && ds[j].apply ensures AttemptAt(attempts, j).allowed {
        assert ds[..n][j] == ds[j];
      }
    }
  }

  lemma DryNext(ds: seq<Decision>, attempts: seq<Attempt>)
    requires ds != []
    ensures var n := |ds| - 1;
      RanDry(ds, attempts) <==> RanDry(ds[..n], attempts) || (ds[n].apply && !AttemptAt(attempts, n).allowed)
  {
    var n := |ds| - 1;
    if i :| 0 <= i < n && ds[i].apply && !AttemptAt(attempts, i).allowed {
      assert ds[..n][i] == ds[i];
    }
    if i :| 0 <= i < |ds[..n]| && ds[..n][i].apply && !AttemptAt(attempts, i).allowed {
      assert ds[i] == ds[..n][i];
    }
  }

  lemma MetNext(ds: seq<Decision>, attempts: seq<Attempt>, outcome: Outcome)
    requires ds != []
    ensures var n := |ds| - 1;
      Met(ds, attempts, outcome) <==>
        Met(ds[..n], attempts, outcome) || (Sent(ds, attempts, n) && AttemptAt(attempts, n).outcome == outcome)
  {
    var n := |ds| - 1;
    if i: nat :| Sent(ds, attempts, i) && AttemptAt(attempts, i).outcome == outcome && i < n {
      SentInFront(ds, attempts, n, i);
    }
    if i: nat :| Sent(ds[..n], attempts, i) && AttemptAt(attempts, i).outcome == outcome {
      SentInFront(ds, attempts, n, i);
    }
  }

  // ---- What the loop reports ----

  /** The loop stops exactly where the bucket runs dry; it reports a failure exactly where a patch it sent
      failed; and it asks for another look soon exactly where one conflicted or the bucket ran dry. No
      other answer, of this pod or another, does any of these. */
  lemma {:induction false} LoopReports(ds: seq<Decision>, attempts: seq<Attempt>, b: Backoff, period: Time)
    ensures var a := ApplyAll(ds, attempts, b, false, period);
      && (a.stopped <==> RanDry(ds, attempts))
      && (a.failed <==> Met(ds, attempts, OtherError))
      && (a.rateLimited <==> Met(ds, attempts, Conflict) || RanDry(ds, attempts))
  {
    if ds != [] {
      LoopReports(ds[..|ds| - 1], attempts, b, period);
      LastIsSent(ds, attempts);
      DryNext(ds, attempts);
      MetNext(ds, attempts, OtherError);
      MetNext(ds, attempts, Conflict);
    }
  }

  // ---- What it sends and opens ----

  /** The patches that should go out, in the order of the decisions. */
  ghost function Wanted(ds: seq<Decision>, attempts: seq<Attempt>, n: nat): seq<Event>
    requires n <= |ds|
  {
    if n == 0 then []
    else
      Wanted(ds, attempts, n - 1)
      + (if Sent(ds, attempts, n - 1) then [Patched(ds[n - 1].key, AttemptAt(attempts, n - 1).sentAt)] else [])
  }

  function PatchesIn(events: seq<Event>): seq<Event> {
    if events == [] then []
    else PatchesIn(events[..|events| - 1]) + (if events[|events| - 1].Patched? then [events[|events| - 1]] else [])
  }

  lemma PatchesNext(events: seq<Event>, e: Event)
    ensures PatchesIn(events + [e]) == PatchesIn(events) + (if e.Patched? then [e] else [])
  {
    assert (events + [e])[..|events|] == events;
  }

  lemma {:induction false} WantedInFront(ds: seq<Decision>, attempts: seq<Attempt>, n: nat, m: nat)
    requires m <= n <= |ds|
    ensures Wanted(ds[..n], attempts, m) == Wanted(ds, attempts, m)
  {
    if m > 0 {
      WantedInFront(ds, attempts, n, m - 1);
      SentInFront(ds, attempts, n, m - 1);
    }
  }

  lemma OneSends(d: Decision, attempt: Attempt, a: Applied, period: Time)
    ensures PatchesIn(ApplyOne(d, attempt, a, false, period).events) ==
      PatchesIn(a.events)
        + (if !a.stopped && d.apply && attempt.allowed then [Patched(d.key, attempt.sentAt)] else [])
  {
    var sent := a.events + [Patched(d.key, attempt.sentAt)];
    if a.stopped || !d.apply || !attempt.allowed {
      assert PatchesIn(a.events) + [] == PatchesIn(a.events);
    } else {
      PatchesNext(a.events, Patched(d.key, attempt.sentAt));
      PatchesNext(sent, Armed(d.key, attempt.answeredAt, Refused));
      assert PatchesIn(sent) + [] == PatchesIn(sent);
    }
  }

  /** Every decision the loop gets to has its patch sent, once and in order, whatever earlier patches were
      answered; nothing else is sent, and nothing once the bucket is dry. */
  lemma {:induction false} LoopSends(ds: seq<Decision>, attempts: seq<Attempt>, b: Backoff, period: Time)
    ensures PatchesIn(ApplyAll(ds, attempts, b, false, period).events) == Wanted(ds, attempts, |ds|)
  {
    if ds != [] {
      var n := |ds| - 1;
      var before := ApplyAll(ds[..n], attempts, b, false, period);
      LoopSends(ds[..n], attempts, b, period);
      LoopReports(ds[..n], attempts, b, period);
      WantedInFront(ds, attempts, n, n);
      LastIsSent(ds, attempts);
      OneSends(ds[n], AttemptAt(attempts, n), before, period);
    }
  }

  lemma {:induction false} AmongPatches(events: seq<Event>, e: Event)
    ensures e in PatchesIn(events) <==> e in events && e.Patched?
  {
    if events != [] {
      var front, last := events[..|events| - 1], events[|events| - 1];
      assert events == front + [last];
      AmongPatches(front, e);
    }
  }

  lemma {:induction false} AmongWanted(ds: seq<Decision>, attempts: seq<Attempt>, n: nat, i: nat)
    requires i < n <= |ds| && Sent(ds, attempts, i)
    ensures Patched(ds[i].key, AttemptAt(attempts, i).sentAt) in Wanted(ds, attempts, n)
  {
    if i < n - 1 {
      AmongWanted(ds, attempts, n - 1, i);
    }
  }

  /** One pod's failure does not strand the rest of the node: a decision the bucket leaves room for is sent
      whatever became of those before it. */
  lemma NoOneIsStranded(ds: seq<Decision>, attempts: seq<Attempt>, b: Backoff, period: Time, i: nat)
    requires i < |ds| && ds[i].apply
    requires forall j :: 0 <= j <= i && ds[j].apply ==> AttemptAt(attempts, j).allowed
    ensures var a, attempt := ApplyAll(ds, attempts, b, false, period), AttemptAt(attempts, i);
      && Patched(ds[i].key, attempt.sentAt) in a.events
      && (attempt.outcome == Accepted ==> ds[i].key in a.accepted)
  {
    assert Sent(ds, attempts, i);
    LoopSends(ds, attempts, b, period);
    AmongWanted(ds, attempts, |ds|, i);
    AmongPatches(ApplyAll(ds, attempts, b, false, period).events,
                 Patched(ds[i].key, AttemptAt(attempts, i).sentAt));
    LoopAccepts(ds, attempts, b, period, ds[i].key);
  }

  /** A patch that was accepted is reported as such, and no other. */
  lemma {:induction false} LoopAccepts(ds: seq<Decision>, attempts: seq<Attempt>, b: Backoff, period: Time, k: PodKey)
    ensures k in ApplyAll(ds, attempts, b, false, period).accepted <==>
      exists i: nat :: Sent(ds, attempts, i) && ds[i].key == k && AttemptAt(attempts, i).outcome == Accepted
  {
    if ds != [] {
      var n := |ds| - 1;
      LoopAccepts(ds[..n], attempts, b, period, k);
      LoopReports(ds[..n], attempts, b, period);
      LastIsSent(ds, attempts);
      forall i: nat | i < n ensures Sent(ds[..n], attempts, i) <==> Sent(ds, attempts, i) {
        SentInFront(ds, attempts, n, i);
      }
    }
  }

  /** A refusal, as the loop records it. */
  ghost predicate IsRefusal(ds: seq<Decision>, attempts: seq<Attempt>, i: nat, e: Event) {
    && Sent(ds, attempts, i) && AttemptAt(attempts, i).outcome == Forbidden
    && e == Armed(ds[i].key, AttemptAt(attempts, i).answeredAt, Refused)
  }

  lemma OneArms(d: Decision, attempt: Attempt, a: Applied, period: Time, e: Event)
    requires e.Armed?
    ensures e in ApplyOne(d, attempt, a, false, period).events <==>
      || e in a.events
      || (&& !a.stopped && d.apply && attempt.allowed && attempt.outcome == Forbidden
          && e == Armed(d.key, attempt.answeredAt, Refused))
  {
  }

  ghost predicate IsWarning(ds: seq<Decision>, attempts: seq<Attempt>, e: Event) {
    exists i: nat :: i < |ds| && IsRefusal(ds, attempts, i, e)
  }

  lemma WarningNext(ds: seq<Decision>, attempts: seq<Attempt>, e: Event)
    requires ds != []
    ensures var n := |ds| - 1;
      IsWarning(ds, attempts, e) <==> IsWarning(ds[..n], attempts, e) || IsRefusal(ds, attempts, n, e)
  {
    var n := |ds| - 1;
    if i: nat :| i < n && IsRefusal(ds, attempts, i, e) {
      SentInFront(ds, attempts, n, i);
      assert IsRefusal(ds[..n], attempts, i, e);
    }
    if i: nat :| i < |ds[..n]| && IsRefusal(ds[..n], attempts, i, e) {
      SentInFront(ds, attempts, n, i);
      assert IsRefusal(ds, attempts, i, e);
    }
  }

  /** A warning goes with each patch that was refused, and no other. */
  lemma {:induction false} LoopWarns(ds: seq<Decision>, attempts: seq<Attempt>, b: Backoff, period: Time, e: Event)
    requires e.Armed?
    ensures e in ApplyAll(ds, attempts, b, false, period).events <==> IsWarning(ds, attempts, e)
  {
    if ds != [] {
      var n := |ds| - 1;
      LoopWarns(ds[..n], attempts, b, period, e);
      LoopReports(ds[..n], attempts, b, period);
      LastIsSent(ds, attempts);
      WarningNext(ds, attempts, e);
      OneArms(ds[n], AttemptAt(attempts, n), ApplyAll(ds[..n], attempts, b, false, period), period, e);
    }
  }

  /** The i-th decision leaves its pod a window that ends a period after a refusal, and otherwise the one it
      had. */
  ghost predicate LeavesWindow(ds: seq<Decision>, attempts: seq<Attempt>, b: Backoff, period: Time, i: nat,
                               after: Backoff)
  {
    i < |ds| ==>
      var k, attempt := ds[i].key, AttemptAt(attempts, i);
      if Sent(ds, attempts, i) && attempt.outcome == Forbidden
      then k in after && after[k] == attempt.answeredAt + period
      else SameWindow(k, b, after)
  }

  lemma OneLeavesWindow(ds: seq<Decision>, attempts: seq<Attempt>, b: Backoff, period: Time)
    requires ds != [] && DecisionKeysDistinct(ds)
    ensures LeavesWindow(ds, attempts, b, period, |ds| - 1, ApplyAll(ds, attempts, b, false, period).backoff)
  {
    var n := |ds| - 1;
    LoopReports(ds[..n], attempts, b, period);
    LastIsSent(ds, attempts);
    ApplyTouchesDecided(ds[..n], attempts, b, false, period, ds[n].key);
  }

  /** Where decisions are on different pods, a refused pod's window ends a period after the answer, and that
      of every other pod decided on is as it was. */
  lemma {:induction false} LoopOpens(ds: seq<Decision>, attempts: seq<Attempt>, b: Backoff, period: Time, i: nat)
    requires DecisionKeysDistinct(ds)
    ensures LeavesWindow(ds, attempts, b, period, i, ApplyAll(ds, attempts, b, false, period).backoff)
  {
    if i < |ds| - 1 {
      var n := |ds| - 1;
      LoopOpens(ds[..n], attempts, b, period, i);
      SentInFront(ds, attempts, n, i);
      ApplyTouchesOne(ds[n], AttemptAt(attempts, n), ApplyAll(ds[..n], attempts, b, false, period), false, period);
    } else if i == |ds| - 1 {
      OneLeavesWindow(ds, attempts, b, period);
    }
  }
}
