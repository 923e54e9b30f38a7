/** The item store ordered by rank, then by numeric id: what insertions keep, and what two
    sessions that never saw each other merge to (`scripts/queue.py`, `Item.sort_key`,
    `cmd_rank`). */
module RankStore {
  import opened RankText
  import opened RankInteger
  import opened RankFraction
  import opened RankMint

  datatype Item = Item(rank: string, id: nat)

  /** The order `sort_key` gives: by rank, ties by id. */
  predicate Before(a: Item, b: Item) {
    Less(a.rank, b.rank) || (a.rank == b.rank && a.id < b.id)
  }

  ghost predicate Sorted(items: seq<Item>) {
    forall i, j :: 0 <= i < j < |items| ==> Before(items[i], items[j])
  }

  ghost predicate AllWellFormed(items: seq<Item>) {
    forall i :: 0 <= i < |items| ==> WellFormed(items[i].rank)
  }

  /** Strictly sorted: no two items share a rank. */
  ghost predicate Distinct(items: seq<Item>) {
    forall i, j :: 0 <= i < j < |items| ==> Less(items[i].rank, items[j].rank)
  }

  function RankAt(items: seq<Item>, i: int): string {
    if 0 <= i < |items| then items[i].rank else ""
  }

  /** The rank a session mints for a slot from the two neighbours it can see. */
  function Mint(items: seq<Item>, at: nat): Result<string>
    requires at <= |items|
  {
    RankBetween(RankAt(items, at - 1), RankAt(items, at))
  }

  function Insert(items: seq<Item>, at: nat, id: nat): Result<seq<Item>>
    requires at <= |items|
  {
    match Mint(items, at)
    case Err(e) => Err(e)
    case Ok(key) => Ok(items[..at] + [Item(key, id)] + items[at..])
  }

  // ---- One insertion ----

  /** A slot can be minted into exactly when its two neighbours do not share a rank. */
  lemma MintNeedsOpenGap(items: seq<Item>, at: nat)
    requires AllWellFormed(items) && Sorted(items) && at <= |items|
    ensures Mint(items, at).Ok? <==> at == 0 || at == |items| || items[at - 1].rank != items[at].rank
    ensures Mint(items, at).Ok? ==> WellFormed(Mint(items, at).value)
    ensures Mint(items, at).Ok? ==> forall i :: 0 <= i < at ==> Less(items[i].rank, Mint(items, at).value)
    ensures Mint(items, at).Ok? ==> forall i :: at <= i < |items| ==> Less(Mint(items, at).value, items[i].rank)
  {
    var lo, hi := RankAt(items, at - 1), RankAt(items, at);
    if 0 < at < |items| {
      assert Before(items[at - 1], items[at]);
      LessIrreflexive(lo);
    }
    if at == 0 || at == |items| || lo != hi {
      MintIsBetween(lo, hi);
      var key := Mint(items, at).value;
      forall i | 0 <= i < at ensures Less(items[i].rank, key) {
        if i < at - 1 {
          BelowBefore(items[i], items[at - 1], key);
        }
      }
      forall i | at <= i < |items| ensures Less(key, items[i].rank) {
        if i > at {
          assert Before(items[at], items[i]);
          AboveBefore(key, items[at], items[i]);
        }
      }
    } else {
      CheckRankAccepts(lo);
    }
  }

  lemma BelowBefore(a: Item, b: Item, key: string)
    requires Before(a, b) && Less(b.rank, key)
    ensures Less(a.rank, key)
  {
    if a.rank != b.rank {
      LessTransitive(a.rank, b.rank, key);
    }
  }

  lemma AboveBefore(key: string, a: Item, b: Item)
    requires Less(key, a.rank) && Before(a, b)
    ensures Less(key, b.rank)
  {
    if a.rank != b.rank {
      LessTransitive(key, a.rank, b.rank);
    }
  }

  /** A rank strictly inside a slot can go there. */
  lemma SlotKeepsOrder(items: seq<Item>, at: nat, x: Item)
    requires AllWellFormed(items) && Sorted(items) && at <= |items| && WellFormed(x.rank)
    requires forall i :: 0 <= i < at ==> Less(items[i].rank, x.rank)
    requires forall i :: at <= i < |items| ==> Less(x.rank, items[i].rank)
    ensures var after := items[..at] + [x] + items[at..];
            AllWellFormed(after) && Sorted(after) && (Distinct(items) ==> Distinct(after))
  {
    var after := items[..at] + [x] + items[at..];
    forall i, j | 0 <= i < j < |after|
      ensures Before(after[i], after[j]) && (Distinct(items) ==> Less(after[i].rank, after[j].rank))
    {
      if i != at && j != at {
        var i', j' := if i < at then i else i - 1, if j < at then j else j - 1;
        assert after[i] == items[i'] && after[j] == items[j'] && i' < j';
      }
    }
  }

  /** An insertion keeps the store sorted, and keeps ranks distinct where they were. */
  lemma InsertKeepsOrder(items: seq<Item>, at: nat, id: nat)
    requires AllWellFormed(items) && Sorted(items) && at <= |items|
    requires Insert(items, at, id).Ok?
    ensures var after := Insert(items, at, id).value;
            AllWellFormed(after) && Sorted(after) && (Distinct(items) ==> Distinct(after))
  {
    MintNeedsOpenGap(items, at);
    SlotKeepsOrder(items, at, Item(Mint(items, at).value, id));
  }

  // ---- Any run of insertions ----

  datatype Placement = Placement(at: nat, id: nat)

  function InsertAll(items: seq<Item>, placements: seq<Placement>): Result<seq<Item>>
    requires forall k :: 0 <= k < |placements| ==> placements[k].at <= |items| + k
    decreases |placements|
  {
    if placements == [] then Ok(items)
    else match Insert(items, placements[0].at, placements[0].id)
      case Err(e) => Err(e)
      case Ok(next) => InsertAll(next, placements[1..])
  }

  lemma DistinctIsSorted(items: seq<Item>)
    requires Distinct(items)
    ensures Sorted(items)
  {
  }

  ghost predicate HasId(items: seq<Item>, id: nat) {
    exists x :: x in items && x.id == id
  }

  lemma HasIdStays(items: seq<Item>, more: seq<Item>, id: nat)
    requires HasId(items, id) && forall x :: x in items ==> x in more
    ensures HasId(more, id)
  {
  }

  /** Where ranks are distinct, an insertion succeeds at every position. */
  lemma {:induction false} InsertKeepsDistinct(items: seq<Item>, p: Placement)
    requires AllWellFormed(items) && Distinct(items) && p.at <= |items|
    ensures Insert(items, p.at, p.id).Ok?
    ensures var after := Insert(items, p.at, p.id).value;
            && |after| == |items| + 1 && AllWellFormed(after) && Distinct(after)
            && (forall x :: x in items ==> x in after)
            && HasId(after, p.id)
  {
    MintsAnywhere(items, p.at);
    DistinctIsSorted(items);
    InsertKeepsOrder(items, p.at, p.id);
    InsertHolds(items, p.at, Item(Mint(items, p.at).value, p.id));
  }

  lemma {:induction false} MintsAnywhere(items: seq<Item>, at: nat)
    requires AllWellFormed(items) && Distinct(items) && at <= |items|
    ensures Mint(items, at).Ok?
  {
    DistinctIsSorted(items);
    if 0 < at < |items| {
      LessIrreflexive(items[at].rank);
    }
    MintNeedsOpenGap(items, at);
  }

  lemma InsertHolds(items: seq<Item>, at: nat, x: Item)
    requires at <= |items|
    ensures var after := items[..at] + [x] + items[at..]; x in after && forall y :: y in items ==> y in after
  {
    assert (items[..at] + [x] + items[at..])[at] == x;
    assert items == items[..at] + items[at..];
  }

  /** Strictly increasing, with every item that was there and one under each new id. */
  ghost predicate Placed(items: seq<Item>, placements: seq<Placement>, after: seq<Item>) {
    && |after| == |items| + |placements|
    && AllWellFormed(after) && Distinct(after)
    && (forall x :: x in items ==> x in after)
    && (forall p :: p in placements ==> HasId(after, p.id))
  }

  lemma PlacedOneMore(items: seq<Item>, next: seq<Item>, after: seq<Item>, p: Placement, rest: seq<Placement>)
    requires |next| == |items| + 1 && HasId(next, p.id) && forall x :: x in items ==> x in next
    requires Placed(next, rest, after)
    ensures Placed(items, [p] + rest, after)
  {
    HasIdStays(next, after, p.id);
  }

  /** Insertions at any positions whatever all succeed, lose no item, and keep the ranks
      strictly increasing. */
  lemma {:induction false} AnyInsertionsKeepStrictOrder(items: seq<Item>, placements: seq<Placement>)
    requires AllWellFormed(items) && Distinct(items)
    requires forall k :: 0 <= k < |placements| ==> placements[k].at <= |items| + k
    ensures InsertAll(items, placements).Ok? && Placed(items, placements, InsertAll(items, placements).value)
    decreases |placements|
  {
    if placements != [] {
      var p := placements[0];
      InsertKeepsDistinct(items, p);
      var next := Insert(items, p.at, p.id).value;
      AnyInsertionsKeepStrictOrder(next, placements[1..]);
      PlacedOneMore(items, next, InsertAll(next, placements[1..]).value, p, placements[1..]);
      assert placements == [p] + placements[1..];
    }
  }

  // ---- Head insertion ----

  /** The store after `k` head insertions into an empty one. */
  function HeadInserts(k: nat): Result<seq<string>> {
    if k == 0 then Ok([])
    else match HeadInserts(k - 1)
      case Err(e) => Err(e)
      case Ok(keys) => InsertHead(keys)
  }

  function InsertHead(keys: seq<string>): Result<seq<string>> {
    match RankBetween("", if keys == [] then "" else keys[0])
    case Err(e) => Err(e)
    case Ok(key) => Ok([key] + keys)
  }

  /** The integer keys for -(k-1), ..., -1, 0. */
  ghost predicate Countdown(keys: seq<string>, k: nat) {
    |keys| == k && forall i :: 0 <= i < k ==> IsInteger(keys[i]) && Value(keys[i]) == i + 1 - k
  }

  /** Head insertions cost no length: the k-th key is the integer key for -(k-1), until the
      bottom magnitude is used up. */
  lemma {:induction false} HeadInsertsAreIntegers(k: nat)
    requires k <= -MIN_VALUE
    ensures IsCountdown(HeadInserts(k), k)
  {
    if k > 0 {
      HeadInsertsAreIntegers(k - 1);
      NextHead(k, HeadInserts(k - 1));
    }
  }

  ghost predicate IsCountdown(r: Result<seq<string>>, k: nat) {
    r.Ok? && Countdown(r.value, k)
  }

  lemma {:induction false} NextHead(k: nat, before: Result<seq<string>>)
    requires 0 < k <= -MIN_VALUE && HeadInserts(k - 1) == before && IsCountdown(before, k - 1)
    ensures IsCountdown(HeadInserts(k), k)
  {
    var after := OneMoreHead(k, before.value);
    CountdownStep(before.value, k - 1, after);
  }

  lemma {:induction false} OneMoreHead(k: nat, keys: seq<string>) returns (after: Result<seq<string>>)
    requires k > 0 && HeadInserts(k - 1) == Ok(keys)
    ensures after == InsertHead(keys) == HeadInserts(k)
  {
    after := InsertHead(keys);
  }

  lemma CountdownStep(keys: seq<string>, k: nat, after: Result<seq<string>>)
    requires k < -MIN_VALUE && Countdown(keys, k) && after == InsertHead(keys)
    ensures IsCountdown(after, k + 1)
  {
    var first := if keys == [] then "" else keys[0];
    var key := MintedHead(first, 1 - k);
    CountdownGrows(keys, k, key);
  }

  lemma MintedHead(first: string, v: int) returns (key: string)
    requires if v == 1 then first == "" else IsInteger(first) && Value(first) == v
    requires MIN_VALUE < v - 1
    ensures RankBetween("", first) == Ok(key) && IsInteger(key) && Value(key) == v - 1
  {
    if v == 1 {
      FirstKeyIsZero();
      key := "a0";
      assert "a" + [DigitChar(0)] == key;
    } else {
      BelowIntegerKey(first);
      DecrementTakesOne(first);
      key := Decrement(first).value;
    }
  }

  lemma CountdownGrows(keys: seq<string>, k: nat, key: string)
    requires Countdown(keys, k) && IsInteger(key) && Value(key) == 0 - k
    ensures Countdown([key] + keys, k + 1)
  {
  }

  // ---- Tail insertion ----

  /** The store after `k` tail insertions into an empty one. */
  function TailInserts(k: nat): Result<seq<string>> {
    if k == 0 then Ok([])
    else match TailInserts(k - 1)
      case Err(e) => Err(e)
      case Ok(keys) => InsertTail(keys)
  }

  function InsertTail(keys: seq<string>): Result<seq<string>> {
    match RankBetween(if keys == [] then "" else keys[|keys| - 1], "")
    case Err(e) => Err(e)
    case Ok(key) => Ok(keys + [key])
  }

  /** The integer keys for 0, 1, ..., k-1. */
  ghost predicate Countup(keys: seq<string>, k: nat) {
    |keys| == k && forall i :: 0 <= i < k ==> IsInteger(keys[i]) && Value(keys[i]) == i
  }

  /** Tail insertions cost no length either: the k-th key is the integer key for k-1, until the top
      magnitude is used up. */
  lemma {:induction false} TailInsertsAreIntegers(k: nat)
    requires k <= MAX_VALUE + 1
    ensures IsCountup(TailInserts(k), k)
  {
    if k > 0 {
      TailInsertsAreIntegers(k - 1);
      NextTail(k, TailInserts(k - 1));
    }
  }

  ghost predicate IsCountup(r: Result<seq<string>>, k: nat) {
    r.Ok? && Countup(r.value, k)
  }

  lemma {:induction false} NextTail(k: nat, before: Result<seq<string>>)
    requires 0 < k <= MAX_VALUE + 1 && TailInserts(k - 1) == before && IsCountup(before, k - 1)
    ensures IsCountup(TailInserts(k), k)
  {
    var after := OneMoreTail(k, before.value);
    CountupStep(before.value, k - 1, after);
  }

  lemma {:induction false} OneMoreTail(k: nat, keys: seq<string>) returns (after: Result<seq<string>>)
    requires k > 0 && TailInserts(k - 1) == Ok(keys)
    ensures after == InsertTail(keys) == TailInserts(k)
  {
    after := InsertTail(keys);
  }

  lemma CountupStep(keys: seq<string>, k: nat, after: Result<seq<string>>)
    requires k <= MAX_VALUE && Countup(keys, k) && after == InsertTail(keys)
    ensures IsCountup(after, k + 1)
  {
    var last := if keys == [] then "" else keys[k - 1];
    var key := MintedTail(last, k);
    CountupGrows(keys, k, key);
  }

  lemma MintedTail(last: string, v: nat) returns (key: string)
    requires v <= MAX_VALUE && if v == 0 then last == "" else IsInteger(last) && Value(last) == v - 1
    ensures RankBetween(last, "") == Ok(key) && IsInteger(key) && Value(key) == v
  {
    FirstKeyIsZero();
    if v == 0 {
      key := "a0";
      assert "a" + [DigitChar(0)] == key;
    } else {
      key := AboveIntegerKey(last);
    }
  }

  lemma AboveIntegerKey(last: string) returns (key: string)
    requires IsInteger(last) && MIN_VALUE < Value(last) < MAX_VALUE
    ensures RankBetween(last, "") == Ok(key) && IsInteger(key) && Value(key) == Value(last) + 1
  {
    EndsAreIntegers();
    IntegerOrder(last, SMALLEST_INTEGER);
    assert last + "" == last;
    RankJoins(last, "");
    RankSplits(last);
    IncrementAddsOne(last);
    key := Increment(last).value;
  }

  lemma CountupGrows(keys: seq<string>, k: nat, key: string)
    requires Countup(keys, k) && IsInteger(key) && Value(key) == k
    ensures Countup(keys + [key], k + 1)
  {
  }

  // ---- Next to an integer key ----

  /** Below an integer key the next integer key is minted, except just above the reserved
      bottom, where the room left is a fraction over the bottom. */
  lemma BelowIntegerKey(x: string)
    requires IsInteger(x) && Value(x) > MIN_VALUE
    ensures RankBetween("", x) ==
      if Value(x) - 1 > MIN_VALUE then Decrement(x) else Ok(SMALLEST_INTEGER + Midpoint("", ""))
  {
    EndsAreIntegers();
    IntegerOrder(x, SMALLEST_INTEGER);
    assert x + "" == x;
    RankJoins(x, "");
    RankSplits(x);
    LessIrreflexive(x);
    DecrementTakesOne(x);
    IntegerOrder(Decrement(x).value, SMALLEST_INTEGER);
  }

  // ---- What `rank` mints against a store it can see ----

  /** `--head` and `--tail` never mint a key some row already holds. */
  lemma {:induction false} HeadAndTailAreClear(items: seq<Item>)
    requires AllWellFormed(items) && Sorted(items)
    ensures Mint(items, 0).Ok? && Mint(items, |items|).Ok?
    ensures forall i :: 0 <= i < |items| ==>
      items[i].rank != Mint(items, 0).value && items[i].rank != Mint(items, |items|).value
  {
    MintNeedsOpenGap(items, 0);
    MintNeedsOpenGap(items, |items|);
    forall i | 0 <= i < |items|
      ensures items[i].rank != Mint(items, 0).value && items[i].rank != Mint(items, |items|).value
    {
      LessIrreflexive(items[i].rank);
    }
  }

  ghost predicate NoneInside(items: seq<Item>, lo: string, hi: string) {
    forall i :: 0 <= i < |items| ==> !Inside(lo, items[i].rank, hi)
  }

  /** A key minted from given bounds is clear of every store with no row strictly between them. */
  lemma {:induction false} EmptyGapIsClear(lo: string, hi: string, items: seq<Item>)
    requires (lo != "" ==> WellFormed(lo)) && (hi != "" ==> WellFormed(hi)) && (lo != "" && hi != "" ==> Less(lo, hi))
    requires NoneInside(items, lo, hi)
    ensures RankBetween(lo, hi).Ok? && forall i :: 0 <= i < |items| ==> items[i].rank != RankBetween(lo, hi).value
  {
    MintIsBetween(lo, hi);
  }

  /** Bounds pin no gap: for any two there is a store, sorted and of distinct ranks, that holds them both
      and holds the key minted from them. */
  lemma {:induction false} BoundsDoNotPinTheGap(lo: string, hi: string) returns (items: seq<Item>)
    requires WellFormed(lo) && WellFormed(hi) && Less(lo, hi)
    ensures AllWellFormed(items) && Distinct(items) && |items| == 3
    ensures items[0].rank == lo && items[2].rank == hi && RankBetween(lo, hi) == Ok(items[1].rank)
  {
    MintIsBetween(lo, hi);
    items := [Item(lo, 1), Item(RankBetween(lo, hi).value, 2), Item(hi, 3)];
  }

  // ---- Two sessions merge ----

  ghost function Elements(items: seq<Item>): set<Item> {
    set x | x in items
  }

  lemma BeforeIsStrict(a: Item, b: Item)
    requires Before(a, b)
    ensures a != b && !Before(b, a)
  {
    LessIrreflexive(a.rank);
    if Less(b.rank, a.rank) {
      if a.rank != b.rank {
        LessAsymmetric(a.rank, b.rank);
      }
    }
  }

  /** The rows on disk determine their order: it does not depend on which side merged first. */
  lemma {:induction false} ListingIsUnique(xs: seq<Item>, ys: seq<Item>)
    requires Sorted(xs) && Sorted(ys) && Elements(xs) == Elements(ys)
    ensures xs == ys
  {
    if xs == [] {
      if ys != [] {
        SameFirst(ys, xs);
      }
    } else {
      SameFirst(xs, ys);
      var x := xs[0];
      TailElements(xs);
      TailElements(ys);
      ListingIsUnique(xs[1..], ys[1..]);
      assert xs == [x] + xs[1..] && ys == [x] + ys[1..];
    }
  }

  lemma SameFirst(xs: seq<Item>, ys: seq<Item>)
    requires Sorted(xs) && Sorted(ys) && Elements(xs) == Elements(ys) && xs != []
    ensures ys != [] && xs[0] == ys[0]
  {
    assert xs[0] in Elements(xs);
    assert xs[0] in Elements(ys);
    assert ys[0] in Elements(xs);
    var i :| 0 <= i < |ys| && ys[i] == xs[0];
    var j :| 0 <= j < |xs| && xs[j] == ys[0];
    if xs[0] != ys[0] {
      BeforeIsStrict(ys[0], ys[i]);
    }
  }

  lemma TailElements(xs: seq<Item>)
    requires Sorted(xs) && xs != []
    ensures Sorted(xs[1..]) && Elements(xs[1..]) == Elements(xs) - {xs[0]}
  {
    forall i | 0 < i < |xs| ensures xs[i] != xs[0] {
      BeforeIsStrict(xs[0], xs[i]);
    }
    assert xs == [xs[0]] + xs[1..];
  }

  /** Whatever a session saw in some order stays in that order in any store that holds it. */
  lemma MergeKeepsEachOrder(seen: seq<Item>, merged: seq<Item>, i: nat, j: nat)
    requires Sorted(seen) && Sorted(merged) && Elements(seen) <= Elements(merged)
    requires i < |merged| && j < |merged| && merged[i] in seen && merged[j] in seen
    ensures i < j <==> exists i', j' :: 0 <= i' < j' < |seen| && seen[i'] == merged[i] && seen[j'] == merged[j]
  {
    var i' :| 0 <= i' < |seen| && seen[i'] == merged[i];
    var j' :| 0 <= j' < |seen| && seen[j'] == merged[j];
    if i < j {
      BeforeIsStrict(merged[i], merged[j]);
      assert i' != j' && !(j' < i');
      assert i' < j';
    } else if exists i'', j'' :: 0 <= i'' < j'' < |seen| && seen[i''] == merged[i] && seen[j''] == merged[j] {
      var i'', j'' :| 0 <= i'' < j'' < |seen| && seen[i''] == merged[i] && seen[j''] == merged[j];
      BeforeIsStrict(seen[i''], seen[j'']);
    }
  }

  /** Two items of one rank fill a slot in the order of their ids. */
  lemma PairFillsSlot(items: seq<Item>, at: nat, x: Item, y: Item)
    requires Sorted(items) && at <= |items| && x.rank == y.rank && x.id < y.id
    requires forall i :: 0 <= i < at ==> Less(items[i].rank, x.rank)
    requires forall i :: at <= i < |items| ==> Less(x.rank, items[i].rank)
    ensures var both := items[..at] + [x, y] + items[at..];
            && Sorted(both)
            && Elements(both) == Elements(items[..at] + [x] + items[at..]) + Elements(items[..at] + [y] + items[at..])
  {
    var both := items[..at] + [x, y] + items[at..];
    forall i, j | 0 <= i < j < |both| ensures Before(both[i], both[j]) {
      if !(at <= i <= at + 1) && !(at <= j <= at + 1) {
        var i', j' := if i < at then i else i - 2, if j < at then j else j - 2;
        assert both[i] == items[i'] && both[j] == items[j'] && i' < j';
      }
    }
  }

  /** Two sessions that insert blindly into the same gap mint the same rank. The merged store is
      the gap's two sides with both items between them, the lower id first, whatever order the
      rows arrive in. */
  lemma BlindInsertsMerge(items: seq<Item>, at: nat, a: nat, b: nat, merged: seq<Item>)
    requires AllWellFormed(items) && Sorted(items) && at <= |items| && a < b
    requires Insert(items, at, a).Ok? && Insert(items, at, b).Ok?
    requires Sorted(merged)
    requires Elements(merged) == Elements(Insert(items, at, a).value) + Elements(Insert(items, at, b).value)
    ensures Mint(items, at).Ok?
    ensures var key := Mint(items, at).value;
            merged == items[..at] + [Item(key, a), Item(key, b)] + items[at..]
  {
    var key := Mint(items, at).value;
    MintNeedsOpenGap(items, at);
    PairFillsSlot(items, at, Item(key, a), Item(key, b));
    ListingIsUnique(merged, items[..at] + [Item(key, a), Item(key, b)] + items[at..]);
  }
}
