/** Backlog IDs handed out by creating refs on a shared remote, with any number of sessions asking at
    once (`scripts/alloc-queue-id.sh`). */
module QueueIds {

  type Blob = string

  /** `refs/queue-ids/Q<n>`, by number. */
  type Refs = map<nat, Blob>

  const MAX_ATTEMPTS := 25

  /** How a push fares: it reaches the remote, it does not, or its answer is lost on the way back. */
  datatype Net = Reached | Unreached | ReplyLost

  /** What a session brings to one claim. */
  datatype Turn = Turn(blob: Blob, net: Net)

  /** `claim`: the push reports success where the ref is already at the blob pushed, creates the ref
      where there is none, and is refused otherwise. */
  function Claim(refs: Refs, n: nat, turn: Turn): (bool, Refs) {
    if turn.net == Unreached then (false, refs)
    else if n in refs then (turn.net == Reached && refs[n] == turn.blob, refs)
    else (turn.net == Reached, refs[n := turn.blob])
  }

  // ---- A session ----

  /** The script's variables, with what it started from and what each of its claims was told. */
  datatype Session = Session(start: nat, titles: nat, floor: nat, attempt: nat, won: seq<nat>, tries: seq<bool>)

  predicate Dead(s: Session) {
    s.attempt >= MAX_ATTEMPTS
  }

  predicate Done(s: Session) {
    Dead(s) || |s.won| >= s.titles
  }

  function Told(s: Session, ok: bool): Session {
    var n := s.floor + 1;
    Session(s.start, s.titles, n, if ok then 0 else s.attempt + 1, if ok then s.won + [n] else s.won, s.tries + [ok])
  }

  ghost predicate IsHighest(refs: Refs, m: nat) {
    (forall n :: n in refs ==> n <= m) && (m == 0 || m in refs)
  }

  function Larger(a: nat, b: nat): (m: nat)
    ensures m >= a && m >= b && (m == a || m == b)
  {
    if a > b then a else b
  }

  function Opened(local: nat, claimed: nat, titles: nat): Session {
    Session(Larger(local, claimed), titles, Larger(local, claimed), 0, [], [])
  }

  /** The IDs won, read off the answers. */
  function Wins(start: nat, tries: seq<bool>): seq<nat> {
    if tries == [] then []
    else
      var k := |tries| - 1;
      Wins(start, tries[..k]) + (if tries[k] then [start + 1 + k] else [])
  }

  function Refusals(tries: seq<bool>): nat {
    if tries == [] || tries[|tries| - 1] then 0 else 1 + Refusals(tries[..|tries| - 1])
  }

  ghost predicate Coherent(s: Session) {
    && s.floor == s.start + |s.tries| && s.won == Wins(s.start, s.tries) && s.attempt == Refusals(s.tries)
    && s.attempt <= MAX_ATTEMPTS && |s.won| <= s.titles && (Dead(s) ==> |s.won| < s.titles)
  }

  lemma ToldKeepsCoherent(s: Session, ok: bool)
    requires Coherent(s) && !Done(s)
    ensures Coherent(Told(s, ok))
  {
    assert (s.tries + [ok])[..|s.tries|] == s.tries;
  }

  ghost predicate Increasing(s: seq<nat>) {
    forall i, j :: 0 <= i < j < |s| ==> s[i] < s[j]
  }

  /** IDs come in increasing order, above where the session started, and never above its floor. */
  lemma {:induction false} WinsIncrease(start: nat, tries: seq<bool>)
    ensures Increasing(Wins(start, tries))
    ensures forall i :: 0 <= i < |Wins(start, tries)| ==> start < Wins(start, tries)[i] <= start + |tries|
  {
    if tries != [] {
      WinsIncrease(start, tries[..|tries| - 1]);
    }
  }

  lemma {:induction false} RefusalsAreTrailing(tries: seq<bool>, m: nat)
    ensures Refusals(tries) >= m <==> m <= |tries| && forall k :: |tries| - m <= k < |tries| ==> !tries[k]
  {
    if m > 0 && tries != [] {
      var n := |tries| - 1;
      RefusalsAreTrailing(tries[..n], m - 1);
      assert forall k :: 0 <= k < n ==> tries[..n][k] == tries[k];
    }
  }

  /** The last 25 claims were all refused. */
  ghost predicate JustRefused(s: Session) {
    |s.tries| >= MAX_ATTEMPTS && forall k :: |s.tries| - MAX_ATTEMPTS <= k < |s.tries| ==> !s.tries[k]
  }

  /** A session gives up on a title exactly when its last 25 claims, of 25 consecutive IDs, were all
      refused. */
  lemma DiesAfterRefusals(s: Session)
    requires Coherent(s)
    ensures Dead(s) <==> JustRefused(s)
  {
    RefusalsAreTrailing(s.tries, MAX_ATTEMPTS);
  }

  /** Over a reliable network only an ID that is taken is refused. */
  lemma ReachedClaimOfFreeIdWins(refs: Refs, n: nat, turn: Turn)
    ensures turn.net == Reached ==> (Claim(refs, n, turn).0 <==> n !in refs || refs[n] == turn.blob)
    ensures Claim(refs, n, turn).0 ==> n in Claim(refs, n, turn).1 && Claim(refs, n, turn).1[n] == turn.blob
  {
  }

  // ---- Any number of sessions ----

  datatype World = World(refs: Refs, sessions: seq<Session>)

  /** A session reads its floor, or makes one claim. */
  datatype Step = Join(local: nat, claimed: nat, titles: nat) | Try(who: nat, turn: Turn)

  predicate Acts(w: World, step: Step) {
    step.Try? && step.who < |w.sessions| && !Done(w.sessions[step.who])
  }

  function Target(w: World, step: Step): nat
    requires Acts(w, step)
  {
    w.sessions[step.who].floor + 1
  }

  function After(w: World, step: Step): World {
    if step.Join? then w.(sessions := w.sessions + [Opened(step.local, step.claimed, step.titles)])
    else if Acts(w, step) then
      var (ok, refs) := Claim(w.refs, Target(w, step), step.turn);
      World(refs, w.sessions[step.who := Told(w.sessions[step.who], ok)])
    else w
  }

  function Run(refs: Refs, steps: seq<Step>): World {
    if steps == [] then World(refs, []) else After(Run(refs, steps[..|steps| - 1]), steps[|steps| - 1])
  }

  ghost predicate AllCoherent(w: World) {
    forall i :: 0 <= i < |w.sessions| ==> Coherent(w.sessions[i])
  }

  lemma {:induction false} RunKeepsCoherent(refs: Refs, steps: seq<Step>)
    ensures AllCoherent(Run(refs, steps))
  {
    if steps != [] {
      var before, step := Run(refs, steps[..|steps| - 1]), steps[|steps| - 1];
      RunKeepsCoherent(refs, steps[..|steps| - 1]);
      if Acts(before, step) {
        ToldKeepsCoherent(before.sessions[step.who], Claim(before.refs, Target(before, step), step.turn).0);
      }
    }
  }

  /** In every run, whoever else claims what: a session's IDs strictly increase above its floor, and it
      gives up exactly after 25 refusals in a row. */
  lemma EverySessionCounts(refs: Refs, steps: seq<Step>, i: nat)
    requires i < |Run(refs, steps).sessions|
    ensures var s := Run(refs, steps).sessions[i];
      && Increasing(s.won) && (forall a :: 0 <= a < |s.won| ==> s.start < s.won[a] <= s.floor)
      && (Dead(s) <==> JustRefused(s))
  {
    RunKeepsCoherent(refs, steps);
    var s := Run(refs, steps).sessions[i];
    WinsIncrease(s.start, s.tries);
    DiesAfterRefusals(s);
  }

  // ---- What a session is refused ----

  ghost predicate Reliable(steps: seq<Step>) {
    forall i :: 0 <= i < |steps| && steps[i].Try? ==> steps[i].turn.net == Reached
  }

  /** The session has asked for this ID. */
  predicate Asked(s: Session, n: nat) {
    s.start < n <= s.start + |s.tries|
  }

  ghost predicate TriedAreTaken(w: World) {
    forall i, n: nat :: 0 <= i < |w.sessions| && Asked(w.sessions[i], n) ==> n in w.refs
  }

  lemma TryTakes(w: World, step: Step)
    requires AllCoherent(w) && TriedAreTaken(w) && (step.Try? ==> step.turn.net == Reached)
    ensures TriedAreTaken(After(w, step))
  {
    var after := After(w, step);
    if Acts(w, step) {
      ReachedClaimOfFreeIdWins(w.refs, Target(w, step), step.turn);
    }
    forall i, n: nat | 0 <= i < |after.sessions| && Asked(after.sessions[i], n) ensures n in after.refs {
      assert i < |w.sessions| && Asked(w.sessions[i], n) ==> n in w.refs;
    }
  }

  /** Over a reliable network every ID a session has asked for is taken, by it or by someone else. */
  lemma {:induction false} TriedIsTaken(refs: Refs, steps: seq<Step>)
    requires Reliable(steps)
    ensures TriedAreTaken(Run(refs, steps))
  {
    if steps != [] {
      var front := steps[..|steps| - 1];
      TriedIsTaken(refs, front);
      RunKeepsCoherent(refs, front);
      TryTakes(Run(refs, front), steps[|steps| - 1]);
    }
  }

  lemma {:induction false} WonWereTold(start: nat, tries: seq<bool>, n: nat)
    requires n in Wins(start, tries)
    ensures start < n <= start + |tries| && tries[n - start - 1]
  {
    var k := |tries| - 1;
    if n in Wins(start, tries[..k]) {
      WonWereTold(start, tries[..k], n);
    }
  }

  /** Over a reliable network a title is given up only where 25 IDs in a row belong to others. */
  lemma GivesUpOnlyToOthers(refs: Refs, steps: seq<Step>, i: nat, n: nat)
    requires Reliable(steps) && i < |Run(refs, steps).sessions| && Dead(Run(refs, steps).sessions[i])
    requires var s := Run(refs, steps).sessions[i]; s.floor - MAX_ATTEMPTS < n <= s.floor
    ensures n in Run(refs, steps).refs && n !in Run(refs, steps).sessions[i].won
  {
    var s := Run(refs, steps).sessions[i];
    RunKeepsCoherent(refs, steps);
    TriedIsTaken(refs, steps);
    DiesAfterRefusals(s);
    assert Asked(s, n);
    if n in s.won {
      WonWereTold(s.start, s.tries, n);
    }
  }

  // ---- No ID is handed out twice ----

  predicate HasWon(w: World, i: nat, n: nat) {
    i < |w.sessions| && n in w.sessions[i].won
  }

  predicate Won(w: World, n: nat) {
    exists i: nat :: i < |w.sessions| && HasWon(w, i, n)
  }

  /** Every ID won is the ID of one session, won once, and was nobody's when the run began. */
  ghost predicate Exclusive(w: World, initial: set<nat>) {
    && (forall i, n :: HasWon(w, i, n) ==> n !in initial)
    && (forall i, j, n :: HasWon(w, i, n) && HasWon(w, j, n) ==> i == j)
  }

  /** The push meets its own blob on a ref that belongs to someone, and is told it succeeded. */
  predicate Steals(w: World, initial: set<nat>, step: Step) {
    && Acts(w, step) && step.turn.net == Reached
    && (var n := Target(w, step); n in w.refs && w.refs[n] == step.turn.blob && (n in initial || Won(w, n)))
  }

  ghost predicate Recorded(w: World, initial: set<nat>) {
    initial <= w.refs.Keys && forall i, n :: HasWon(w, i, n) ==> n in w.refs
  }

  lemma StepWins(w: World, step: Step, i: nat, n: nat)
    ensures HasWon(After(w, step), i, n) <==>
            HasWon(w, i, n) || (Acts(w, step) && i == step.who && n == Target(w, step) && Claim(w.refs, n, step.turn).0)
  {
  }

  lemma StepKeepsRecorded(w: World, initial: set<nat>, step: Step)
    requires Recorded(w, initial)
    ensures Recorded(After(w, step), initial)
  {
    forall i, n | HasWon(After(w, step), i, n) ensures n in After(w, step).refs {
      StepWins(w, step, i, n);
    }
  }

  /** A session never wins the ID it is about to ask for twice. */
  lemma TargetIsNew(w: World, step: Step)
    requires AllCoherent(w) && Acts(w, step)
    ensures !HasWon(w, step.who, Target(w, step))
  {
    var s := w.sessions[step.who];
    WinsIncrease(s.start, s.tries);
  }

  lemma StepIsExclusive(w: World, initial: set<nat>, step: Step)
    requires AllCoherent(w) && Recorded(w, initial)
    ensures Exclusive(After(w, step), initial) <==> Exclusive(w, initial) && !Steals(w, initial, step)
  {
    forall i, n ensures HasWon(w, i, n) ==> HasWon(After(w, step), i, n) {
      StepWins(w, step, i, n);
    }
    if Steals(w, initial, step) {
      StealIsSeen(w, initial, step);
    } else if Exclusive(w, initial) {
      HonestStepIsExclusive(w, initial, step);
    }
  }

  lemma StealIsSeen(w: World, initial: set<nat>, step: Step)
    requires AllCoherent(w) && Steals(w, initial, step)
    ensures !Exclusive(After(w, step), initial)
  {
    var n := Target(w, step);
    StepWins(w, step, step.who, n);
    if n !in initial {
      var i: nat :| i < |w.sessions| && HasWon(w, i, n);
      TargetIsNew(w, step);
      StepWins(w, step, i, n);
    }
  }

  lemma HonestStepIsExclusive(w: World, initial: set<nat>, step: Step)
    requires AllCoherent(w) && Recorded(w, initial) && Exclusive(w, initial) && !Steals(w, initial, step)
    ensures Exclusive(After(w, step), initial)
  {
    var after := After(w, step);
    forall i, n | HasWon(after, i, n) ensures n !in initial {
      StepWins(w, step, i, n);
    }
    forall i, j, n | HasWon(after, i, n) && HasWon(after, j, n) ensures i == j {
      StepWins(w, step, i, n);
      StepWins(w, step, j, n);
    }
  }

  ghost predicate NobodySteals(refs: Refs, steps: seq<Step>) {
    steps != [] ==>
      var front := steps[..|steps| - 1];
      NobodySteals(refs, front) && !Steals(Run(refs, front), refs.Keys, steps[|steps| - 1])
  }

  /** Over every interleaving, IDs are exclusive if and only if no push was told of success by a ref
      that belonged to someone and held its own blob. */
  lemma {:induction false} ExclusiveExactly(refs: Refs, steps: seq<Step>)
    ensures Recorded(Run(refs, steps), refs.Keys)
    ensures Exclusive(Run(refs, steps), refs.Keys) <==> NobodySteals(refs, steps)
  {
    if steps != [] {
      var front := steps[..|steps| - 1];
      ExclusiveExactly(refs, front);
      RunKeepsCoherent(refs, front);
      StepKeepsRecorded(Run(refs, front), refs.Keys, steps[|steps| - 1]);
      StepIsExclusive(Run(refs, front), refs.Keys, steps[|steps| - 1]);
    }
  }

  // ---- A blob of one's own ----

  ghost predicate Holds(refs: Refs, blob: Blob) {
    exists n :: n in refs && refs[n] == blob
  }

  /** Every claim pushes a blob of its own, on no ref when the run began. */
  ghost predicate UniqueBlobs(refs: Refs, steps: seq<Step>) {
    && (forall i :: 0 <= i < |steps| && steps[i].Try? ==> !Holds(refs, steps[i].turn.blob))
    && (forall i, j :: 0 <= i < j < |steps| && steps[i].Try? && steps[j].Try? ==>
        steps[i].turn.blob != steps[j].turn.blob)
  }

  lemma {:induction false} BlobsComeFromClaims(refs: Refs, steps: seq<Step>, blob: Blob)
    requires !Holds(refs, blob) && forall i :: 0 <= i < |steps| && steps[i].Try? ==> steps[i].turn.blob != blob
    ensures !Holds(Run(refs, steps).refs, blob)
  {
    if steps != [] {
      BlobsComeFromClaims(refs, steps[..|steps| - 1], blob);
    }
  }

  /** With a blob per claim no two sessions, and no session twice, are handed the same ID, nor one that
      was claimed before. */
  lemma {:induction false} UniqueBlobsAreExclusive(refs: Refs, steps: seq<Step>)
    requires UniqueBlobs(refs, steps)
    ensures NobodySteals(refs, steps) && Exclusive(Run(refs, steps), refs.Keys)
  {
    if steps != [] {
      var m := |steps| - 1;
      UniqueBlobsAreExclusive(refs, steps[..m]);
      if steps[m].Try? {
        BlobsComeFromClaims(refs, steps[..m], steps[m].turn.blob);
      }
    }
    ExclusiveExactly(refs, steps);
  }

  /** With a blob they share, two sessions at the same floor are both handed the next free ID. */
  lemma {:induction false} SharedBlobIsHandedOutTwice(w: World, i: nat, j: nat, blob: Blob)
    requires i < |w.sessions| && j < |w.sessions| && i != j
    requires !Done(w.sessions[i]) && !Done(w.sessions[j]) && w.sessions[i].floor == w.sessions[j].floor
    requires w.sessions[i].floor + 1 !in w.refs
    ensures var n := w.sessions[i].floor + 1;
      var end := After(After(w, Try(i, Turn(blob, Reached))), Try(j, Turn(blob, Reached)));
      HasWon(end, i, n) && HasWon(end, j, n)
  {
    var n, turn := w.sessions[i].floor + 1, Turn(blob, Reached);
    var mid := After(w, Try(i, turn));
    StepWins(w, Try(i, turn), i, n);
    StepWins(mid, Try(j, turn), i, n);
    StepWins(mid, Try(j, turn), j, n);
  }

  // ---- The script ----

  /** A push by someone else. */
  datatype Foreign = Foreign(n: nat, turn: Turn)

  function Landed(refs: Refs, pushes: seq<Foreign>): Refs
    decreases |pushes|
  {
    if pushes == [] then refs
    else Landed(Claim(refs, pushes[0].n, pushes[0].turn).1, pushes[1..])
  }

  /** What happens around a session's k-th claim: what others push first, and the claim's own turn. */
  datatype Around = Around(others: seq<Foreign>, turn: Turn)

  /** The k-th; past the ones given, the network is down. */
  function AroundAt(around: seq<Around>, k: nat): Around {
    if k < |around| then around[k] else Around([], Turn("", Unreached))
  }

  /** One claim: others' pushes land first. */
  function OneClaim(s: Session, refs: Refs, a: Around): (Session, Refs) {
    var (ok, after) := Claim(Landed(refs, a.others), s.floor + 1, a.turn);
    (Told(s, ok), after)
  }

  /** A session's claim is the same step among any number of sessions: it moves the remote's refs and
      the session itself alike, and no other session. */
  lemma TryIsClaim(w: World, who: nat, turn: Turn)
    requires who < |w.sessions| && !Done(w.sessions[who])
    ensures var (s, refs) := OneClaim(w.sessions[who], w.refs, Around([], turn));
      After(w, Try(who, turn)) == World(refs, w.sessions[who := s])
  {
    assert Landed(w.refs, []) == w.refs;
  }

  /** A session alone with its remote, claim after claim until it is done. */
  function Play(s: Session, refs: Refs, around: seq<Around>): (Session, Refs)
    decreases s.titles - |s.won|, MAX_ATTEMPTS - s.attempt
  {
    if Done(s) then (s, refs)
    else
      var next := OneClaim(s, refs, AroundAt(around, |s.tries|));
      Play(next.0, next.1, around)
  }

  lemma ClaimIsCoherent(s: Session, refs: Refs, a: Around)
    requires Coherent(s) && !Done(s)
    ensures Coherent(OneClaim(s, refs, a).0)
  {
    ToldKeepsCoherent(s, true);
    ToldKeepsCoherent(s, false);
  }

  lemma {:induction false} PlayIsCoherent(s: Session, refs: Refs, around: seq<Around>)
    requires Coherent(s)
    ensures Coherent(Play(s, refs, around).0)
    decreases s.titles - |s.won|, MAX_ATTEMPTS - s.attempt
  {
    if !Done(s) {
      ClaimIsCoherent(s, refs, AroundAt(around, |s.tries|));
      var next := OneClaim(s, refs, AroundAt(around, |s.tries|));
      PlayIsCoherent(next.0, next.1, around);
    }
  }

  function NextIds(floor: nat, n: nat): (s: seq<nat>)
    ensures |s| == n && forall i :: 0 <= i < n ==> s[i] == floor + 1 + i
  {
    seq(n, i requires 0 <= i < n => floor + 1 + i)
  }

  /** Nobody else pushes, and every push of the session's reaches the remote and is answered. */
  ghost predicate Undisturbed(around: seq<Around>, from: nat, to: nat) {
    forall k :: from <= k < to ==> AroundAt(around, k).others == [] && AroundAt(around, k).turn.net == Reached
  }

  lemma ClaimAlone(s: Session, refs: Refs, a: Around)
    requires a.others == [] && a.turn.net == Reached && s.floor + 1 !in refs
    ensures var n := s.floor + 1;
      OneClaim(s, refs, a) ==
        (Session(s.start, s.titles, n, 0, s.won + [n], s.tries + [true]), refs[n := a.turn.blob])
  {
    assert Landed(refs, a.others) == refs;
  }

  lemma NextIdsStep(won: seq<nat>, floor: nat, n: nat)
    requires n > 0
    ensures won + [floor + 1] + NextIds(floor + 1, n - 1) == won + NextIds(floor, n)
  {
    assert [floor + 1] + NextIds(floor + 1, n - 1) == NextIds(floor, n);
  }

  lemma {:induction false} PlayAlone(s: Session, refs: Refs, around: seq<Around>)
    requires s.attempt == 0 && |s.won| <= s.titles && forall n :: n in refs ==> n <= s.floor
    requires Undisturbed(around, |s.tries|, |s.tries| + s.titles - |s.won|)
    ensures Play(s, refs, around).0.won == s.won + NextIds(s.floor, s.titles - |s.won|)
    decreases s.titles - |s.won|
  {
    if |s.won| < s.titles {
      var a := AroundAt(around, |s.tries|);
      ClaimAlone(s, refs, a);
      var next := OneClaim(s, refs, a);
      PlayAlone(next.0, next.1, around);
      NextIdsStep(s.won, s.floor, s.titles - |s.won|);
    }
  }

  lemma {:induction false} PlayKeepsTitles(s: Session, refs: Refs, around: seq<Around>)
    ensures Play(s, refs, around).0.titles == s.titles
    decreases s.titles - |s.won|, MAX_ATTEMPTS - s.attempt
  {
    if !Done(s) {
      var next := OneClaim(s, refs, AroundAt(around, |s.tries|));
      PlayKeepsTitles(next.0, next.1, around);
    }
  }

  /** A session that starts at the top of what is claimed, and is left alone, is handed the next free IDs,
      one for each title. */
  lemma {:induction false} AloneGetsTheNextIds(local: nat, claimed: nat, titles: nat, refs: Refs, around: seq<Around>)
    requires IsHighest(refs, claimed) && Undisturbed(around, 0, titles)
    ensures var s := Play(Opened(local, claimed, titles), refs, around).0;
      !Dead(s) && s.won == NextIds(if local > claimed then local else claimed, titles)
  {
    var s := Opened(local, claimed, titles);
    PlayAlone(s, refs, around);
    PlayIsCoherent(s, refs, around);
    PlayKeepsTitles(s, refs, around);
    assert [] + NextIds(s.floor, titles) == NextIds(s.floor, titles);
  }

  class Remote {
    var refs: Refs

    /** Others' pushes. */
    method Land(pushes: seq<Foreign>)
      modifies this
      ensures refs == Landed(old(refs), pushes)
    {
      for i := 0 to |pushes|
        invariant Landed(refs, pushes[i..]) == Landed(old(refs), pushes)
      {
        refs := Claim(refs, pushes[i].n, pushes[i].turn).1;
        assert pushes[i..][1..] == pushes[i + 1..];
      }
    }

    method Push(n: nat, turn: Turn) returns (ok: bool)
      modifies this
      ensures (ok, refs) == Claim(old(refs), n, turn)
      ensures turn.net == Unreached ==> refs == old(refs)
      ensures turn.net != Unreached ==> refs == if n in old(refs) then old(refs) else old(refs)[n := turn.blob]
      ensures ok <==> turn.net == Reached && refs[n] == turn.blob
    {
      if turn.net == Unreached {
        return false;
      }
      if n in refs {
        return turn.net == Reached && refs[n] == turn.blob;
      }
      refs := refs[n := turn.blob];
      return turn.net == Reached;
    }

    /** `highest_claimed`, or 0 where the remote cannot be listed. */
    method HighestClaimed(listed: bool) returns (m: nat)
      ensures if listed then IsHighest(refs, m) else m == 0
    {
      m := 0;
      if !listed {
        return;
      }
      var rest := refs.Keys;
      while rest != {}
        invariant rest <= refs.Keys
        invariant (forall n :: n in refs && n !in rest ==> n <= m) && (m == 0 || m in refs)
        decreases |rest|
      {
        var n :| n in rest;
        if n > m {
          m := n;
        }
        rest := rest - {n};
      }
    }
  }

  /** The floor from which a session starts. */
  method OpeningFloor(local: nat, claimed: nat) returns (floor: nat)
    ensures floor >= local && floor >= claimed && (floor == local || floor == claimed)
    ensures floor == Opened(local, claimed, 0).floor
  {
    floor := 0;
    var candidates := [local, claimed];
    for c := 0 to 2
      invariant floor == if c == 0 then 0 else if c == 1 then local else Larger(local, claimed)
    {
      if candidates[c] > floor {
        floor := candidates[c];
      }
    }
  }

  /** One title: claim after claim until one wins or 25 have been refused. */
  method ServeTitle(remote: Remote, start: nat, above: nat, around: seq<Around>, ghost s: Session)
    returns (got: bool, floor: nat, ghost after: Session)
    requires !Done(s) && s.attempt == 0 && s.floor == s.start + |s.tries| && s.start == start && s.floor == above
    modifies remote
    ensures after.start == s.start && after.titles == s.titles && after.floor == floor == s.start + |after.tries|
    ensures if got then after.attempt == 0 && after.won == s.won + [floor] else Dead(after) && after.won == s.won
    ensures Play(after, remote.refs, around) == Play(s, old(remote.refs), around)
  {
    var attempt := 0;
    got, floor, after := false, above, s;
    while attempt < MAX_ATTEMPTS
      invariant after.start == s.start && after.titles == s.titles && after.won == s.won
      invariant after.floor == floor == above + attempt == s.start + |after.tries|
      invariant after.attempt == attempt <= MAX_ATTEMPTS
      invariant Play(after, remote.refs, around) == Play(s, old(remote.refs), around)
    {
      ghost var before := remote.refs;
      remote.Land(AroundAt(around, floor - start).others);
      floor := floor + 1;
      var ok := remote.Push(floor, AroundAt(around, floor - 1 - start).turn);
      assert OneClaim(after, before, AroundAt(around, |after.tries|)) == (Told(after, ok), remote.refs);
      after := Told(after, ok);
      if ok {
        return true, floor, after;
      }
      attempt := attempt + 1;
    }
  }

  /** The whole script: one ID per title, advancing past refusals, whatever others push meanwhile. It
      ends with every title served, or with the one at hand given up after 25 refusals. */
  method Allocate(remote: Remote, local: nat, listed: bool, titles: nat, around: seq<Around>)
    returns (won: seq<nat>, died: bool, ghost claimed: nat, ghost s: Session)
    modifies remote
    ensures if listed then IsHighest(old(remote.refs), claimed) else claimed == 0
    ensures (s, remote.refs) == Play(Opened(local, claimed, titles), old(remote.refs), around)
    ensures won == s.won && died == Dead(s) && Coherent(s)
    ensures died <==> |won| < titles
    ensures Increasing(won) && forall a :: 0 <= a < |won| ==> won[a] > local && (listed ==> won[a] !in old(remote.refs))
  {
    var top := remote.HighestClaimed(listed);
    claimed := top;
    var floor := OpeningFloor(local, top);
    var start := floor;
    s := Opened(local, claimed, titles);
    won, died := [], false;
    PlayIsCoherent(s, remote.refs, around);
    for title := 0 to titles
      invariant s.attempt == 0 && s.titles == titles && s.start == start
      invariant s.floor == floor == start + |s.tries| && s.won == won && |won| == title
      invariant Play(s, remote.refs, around) == Play(Opened(local, claimed, titles), old(remote.refs), around)
    {
      var got;
      got, floor, s := ServeTitle(remote, start, floor, around, s);
      if !got {
        WinsIncrease(s.start, s.tries);
        return won, true, claimed, s;
      }
      won := won + [floor];
    }
    WinsIncrease(s.start, s.tries);
  }
}
