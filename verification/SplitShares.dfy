/** What the split promises of each container's share, and the method that computes it
    (`internal/controller/podinput.go`, `splitLimit`). */
module SplitShares {
  import opened Eligibility
  import opened Split
  import opened Sums

  // ---- The ranked remainders ----

  /** The remainders in hand-out order: sorted, one for each container that requests CPU. */
  lemma RankedShape(target: nat, rcs: seq<Resizable>)
    requires RequestsValid(rcs) && PodRequest(rcs) > 0
    ensures var ranked, fracs := Ranked(target, rcs), Fracs(target, rcs, PodRequest(rcs));
      && Sorted(ranked) && DistinctIdx(ranked)
      && (forall k :: 0 <= k < |ranked| ==>
            && ranked[k].idx < |rcs| && rcs[ranked[k].idx].request > 0
            && ranked[k].frac == fracs[ranked[k].idx])
      && (forall i :: 0 <= i < |rcs| && rcs[i].request > 0 ==> Remainder(i, fracs[i]) in ranked)
  {
    var fracs := Fracs(target, rcs, PodRequest(rcs));
    var rems := Remainders(rcs, fracs);
    RemaindersShape(rcs, fracs);
    SortSorts(rems);
    var ranked := Ranked(target, rcs);
    SameMembers(ranked, rems);
    forall k | 0 <= k < |ranked|
      ensures ranked[k].idx < |rcs| && rcs[ranked[k].idx].request > 0 && ranked[k].frac == fracs[ranked[k].idx]
    {
      assert ranked[k] in rems;
    }
  }

  lemma SameMembers(a: seq<Remainder>, b: seq<Remainder>)
    requires multiset(a) == multiset(b)
    ensures forall x :: x in a <==> x in b
  {
    forall x ensures x in a <==> x in b {
      assert x in a <==> x in multiset(a);
      assert x in b <==> x in multiset(b);
    }
  }

  lemma {:induction false} InsertKeepsSum(r: Remainder, sorted: seq<Remainder>)
    ensures Sum(FracsOf(Insert(r, sorted))) == Sum(FracsOf(sorted)) + r.frac
  {
    if sorted == [] {
      assert FracsOf([r]) == [r.frac] && [r.frac][..0] == [];
    } else {
      var head, tail := sorted[0], sorted[1..];
      FracsOfCons(head, tail);
      assert sorted == [head] + tail;
      if Ahead(r, head) {
        FracsOfCons(r, sorted);
      } else {
        InsertKeepsSum(r, tail);
        FracsOfCons(head, Insert(r, tail));
      }
    }
  }

  lemma FracsOfCons(r: Remainder, rest: seq<Remainder>)
    ensures Sum(FracsOf([r] + rest)) == r.frac + Sum(FracsOf(rest))
  {
    assert FracsOf([r] + rest) == [r.frac] + FracsOf(rest);
    SumConcat([r.frac], FracsOf(rest));
    assert [r.frac][..0] == [];
  }

  lemma {:induction false} SortKeepsSum(rems: seq<Remainder>)
    ensures Sum(FracsOf(Sort(rems))) == Sum(FracsOf(rems))
  {
    if rems != [] {
      var front, last := rems[..|rems| - 1], rems[|rems| - 1];
      SortKeepsSum(front);
      InsertKeepsSum(last, Sort(front));
      assert rems == front + [last] && FracsOf(rems) == FracsOf(front) + [last.frac];
      SumSnoc(FracsOf(front), last.frac);
    }
  }

  // ---- Winners ----

  lemma {:induction false} ZeroTail(f: seq<int>, k: nat, bound: int)
    requires k <= |f|
    requires forall i :: 0 <= i < k ==> 0 <= f[i] <= bound
    requires forall i :: k <= i < |f| ==> f[i] == 0
    ensures Sum(f) <= bound * k
  {
    if k == |f| {
      SumBound(f, bound);
    } else {
      ZeroTail(f[..|f| - 1], k, bound);
    }
  }

  /** A milli-core of the leftover never goes to a share that was whole already. */
  lemma WinnersHaveFracs(target: nat, rcs: seq<Resizable>, k: nat)
    requires RequestsValid(rcs) && 0 < PodRequest(rcs) <= target
    requires k < Leftover(target, rcs)
    ensures k < |Ranked(target, rcs)| && Ranked(target, rcs)[k].frac > 0
  {
    var total := PodRequest(rcs);
    var fracs := Fracs(target, rcs, total);
    LeftoverNeverWraps(target, rcs);
    LeftoverIsLost(target, rcs);
    BasesLoseFracs(target, rcs, total);
    RankedShape(target, rcs);
    RemaindersHoldFracs(rcs, fracs);
    SortKeepsSum(Remainders(rcs, fracs));
    RankedInRange(Ranked(target, rcs), fracs, total);
    FirstFracsArePositive(Ranked(target, rcs), total, Leftover(target, rcs), k);
  }

  /** Sorted remainders that sum to `left` wholes are positive well past the first `left`. */
  lemma FirstFracsArePositive(ranked: seq<Remainder>, total: int, left: int, k: nat)
    requires Sorted(ranked) && total > 0 && k < left && k < |ranked|
    requires forall i :: 0 <= i < |ranked| ==> 0 <= ranked[i].frac <= total - 1
    requires Sum(FracsOf(ranked)) == total * left
    ensures ranked[k].frac > 0
  {
    if ranked[k].frac <= 0 {
      forall i | k <= i < |ranked| ensures ranked[i].frac == 0 {
        assert i == k || Ahead(ranked[k], ranked[i]);
      }
      ZeroTail(FracsOf(ranked), k, total - 1);
      TooManyWinners(total, left, k);
    }
  }

  lemma RankedInRange(ranked: seq<Remainder>, fracs: seq<int>, total: int)
    requires forall k :: 0 <= k < |ranked| ==> ranked[k].idx < |fracs| && ranked[k].frac == fracs[ranked[k].idx]
    requires forall i :: 0 <= i < |fracs| ==> 0 <= fracs[i] <= total - 1
    ensures forall k :: 0 <= k < |ranked| ==> 0 <= ranked[k].frac <= total - 1
  {
  }

  lemma TooManyWinners(total: int, left: int, k: nat)
    requires total > 0 && k < left
    ensures (total - 1) * k < total * left
  {
    Scale(total, k + 1, left);
    Distribute(total, k, 1);
    Distribute(k, total, -1);
  }

  lemma WinnersAreRanked(ranked: seq<Remainder>, left: int, i: nat)
    requires DistinctIdx(ranked) && left <= |ranked|
    ensures i in Winners(ranked, left) <==> exists k :: 0 <= k < left && ranked[k].idx == i
    ensures forall k :: 0 <= k < |ranked| ==> (ranked[k].idx in Winners(ranked, left) <==> k < left)
  {
  }

  lemma {:induction false} WinnersCount(ranked: seq<Remainder>, left: nat)
    requires DistinctIdx(ranked) && left <= |ranked|
    ensures |Winners(ranked, left)| == left
  {
    if left == 0 {
      assert Winners(ranked, left) == {};
    } else {
      WinnersCount(ranked, left - 1);
      assert Winners(ranked, left) == Winners(ranked, left - 1) + {ranked[left - 1].idx};
      assert ranked[left - 1].idx !in Winners(ranked, left - 1);
    }
  }

  // ---- What the shares promise ----

  ghost function Shares(target: nat, rcs: seq<Resizable>): (s: seq<int>)
    requires PodRequest(rcs) > 0
    ensures |s| == |rcs| && forall i :: 0 <= i < |rcs| ==> s[i] == Share(target, rcs, i)
  {
    seq(|rcs|, i requires 0 <= i < |rcs| => Share(target, rcs, i))
  }

  /** The shares of a target that covers the request sum to it exactly. */
  lemma SharesSumToTarget(target: nat, rcs: seq<Resizable>)
    requires RequestsValid(rcs) && 0 < PodRequest(rcs) <= target
    ensures Sum(Shares(target, rcs)) == target
  {
    var total, ranked, left := PodRequest(rcs), Ranked(target, rcs), Leftover(target, rcs);
    LeftoverNeverWraps(target, rcs);
    RankedShape(target, rcs);
    var winners := Winners(ranked, left);
    var bumps := seq(|rcs|, i requires 0 <= i < |rcs| => if i in winners then 1 else 0);
    WinnersCount(ranked, left);
    SumOfIndicator(bumps, winners);
    SumPointwise(Bases(target, rcs, total), bumps, Shares(target, rcs));
  }

  /** Only a share with a remainder is rounded up. */
  lemma RoundedUpHasFrac(target: nat, rcs: seq<Resizable>, i: nat)
    requires RequestsValid(rcs) && 0 < PodRequest(rcs) <= target && i < |rcs|
    requires i in Winners(Ranked(target, rcs), Leftover(target, rcs))
    ensures rcs[i].request > 0 && Fracs(target, rcs, PodRequest(rcs))[i] > 0
  {
    var ranked, left := Ranked(target, rcs), Leftover(target, rcs);
    LeftoverNeverWraps(target, rcs);
    RankedShape(target, rcs);
    WinnersAreRanked(ranked, left, i);
    var k :| 0 <= k < left && ranked[k].idx == i;
    WinnersHaveFracs(target, rcs, k);
  }

  /** A share, taken apart: a floor, what flooring dropped, and the milli-core it may have won. */
  lemma {:induction false} ShareParts(target: nat, rcs: seq<Resizable>, i: nat)
    returns (base: int, frac: int, bump: int)
    requires RequestsValid(rcs) && 0 < PodRequest(rcs) <= target && i < |rcs|
    ensures Share(target, rcs, i) == base + bump
    ensures PodRequest(rcs) * base + frac == target * rcs[i].request && 0 <= frac < PodRequest(rcs)
    ensures bump == 0 || (bump == 1 && frac > 0 && rcs[i].request > 0)
    ensures bump == 1 <==> i in Winners(Ranked(target, rcs), Leftover(target, rcs))
    ensures base >= rcs[i].request && (rcs[i].request == 0 ==> base == 0)
  {
    base := Base(target, rcs[i].request, PodRequest(rcs));
    frac := Frac(target, rcs[i].request, PodRequest(rcs));
    bump := Share(target, rcs, i) - base;
    if bump != 0 {
      RoundedUpHasFrac(target, rcs, i);
    }
    FloorAndFrac(target, rcs[i].request, PodRequest(rcs));
    BaseLosesFrac(target, rcs[i].request, PodRequest(rcs));
  }

  lemma RoundedShare(total: int, exact: int, share: int, base: int, frac: int, bump: int)
    requires share == base + bump
    requires total * base + frac == exact && 0 <= frac < total
    requires bump == 0 || (bump == 1 && frac > 0)
    ensures exact - total < total * share < exact + total
  {
    Distribute(total, base, bump);
  }

  /** Each share is its exact pro-rata value rounded down or up: never rounded up from a whole
      number, and never below the container's own request. A container that requests nothing
      gets nothing. */
  lemma ShareIsProRata(target: nat, rcs: seq<Resizable>, i: nat)
    requires RequestsValid(rcs) && 0 < PodRequest(rcs) <= target && i < |rcs|
    ensures rcs[i].request <= Share(target, rcs, i)
    ensures var total, exact := PodRequest(rcs), target * rcs[i].request;
            exact - total < total * Share(target, rcs, i) < exact + total
    ensures rcs[i].request == 0 ==> Share(target, rcs, i) == 0
  {
    var base, frac, bump := ShareParts(target, rcs, i);
    RoundedShare(PodRequest(rcs), target * rcs[i].request, Share(target, rcs, i), base, frac, bump);
  }

  /** Among the containers, those that get a milli-core of the leftover come first in the ranking. */
  lemma {:induction false} WinnersComeFirst(target: nat, rcs: seq<Resizable>, i: nat, j: nat)
    requires RequestsValid(rcs) && 0 < PodRequest(rcs) <= target && i < |rcs| && j < |rcs|
    requires rcs[i].request > 0 && rcs[j].request > 0
    requires i in Winners(Ranked(target, rcs), Leftover(target, rcs))
    requires j !in Winners(Ranked(target, rcs), Leftover(target, rcs))
    ensures var total := PodRequest(rcs);
      Ahead(Remainder(i, Frac(target, rcs[i].request, total)), Remainder(j, Frac(target, rcs[j].request, total)))
  {
    var ranked, left := Ranked(target, rcs), Leftover(target, rcs);
    LeftoverNeverWraps(target, rcs);
    RankedShape(target, rcs);
    WinnersAreRanked(ranked, left, i);
    var fracs := Fracs(target, rcs, PodRequest(rcs));
    assert Remainder(i, fracs[i]) in ranked && Remainder(j, fracs[j]) in ranked;
  }

  /** A share is rounded up past another one by the larger remainder of its exact value, and among equal
      remainders by the earlier container. */
  lemma {:induction false} LargestRemainderFirst(target: nat, rcs: seq<Resizable>, i: nat, j: nat)
    requires RequestsValid(rcs) && 0 < PodRequest(rcs) <= target && i < |rcs| && j < |rcs|
    requires rcs[i].request > 0 && rcs[j].request > 0
    requires PodRequest(rcs) * Share(target, rcs, i) > target * rcs[i].request
    requires PodRequest(rcs) * Share(target, rcs, j) <= target * rcs[j].request
    ensures var total := PodRequest(rcs);
      var mine, other := target * rcs[i].request % total, target * rcs[j].request % total;
      mine > other || (mine == other && i < j)
  {
    RoundedUpIsWinner(target, rcs, i);
    RoundedUpIsWinner(target, rcs, j);
    WinnersComeFirst(target, rcs, i, j);
    FracIs(target, rcs[i].request, PodRequest(rcs));
    FracIs(target, rcs[j].request, PodRequest(rcs));
  }

  lemma FracIs(target: nat, request: int, total: int)
    requires total > 0
    ensures Frac(target, request, total) == target * request % total
  {
  }

  lemma RoundedUpIsWinner(target: nat, rcs: seq<Resizable>, i: nat)
    requires RequestsValid(rcs) && 0 < PodRequest(rcs) <= target && i < |rcs|
    ensures PodRequest(rcs) * Share(target, rcs, i) > target * rcs[i].request <==>
      i in Winners(Ranked(target, rcs), Leftover(target, rcs))
  {
    var base, frac, bump := ShareParts(target, rcs, i);
    BumpRoundsUp(PodRequest(rcs), target * rcs[i].request, Share(target, rcs, i), base, frac, bump);
  }

  lemma BumpRoundsUp(total: int, exact: int, share: int, base: int, frac: int, bump: int)
    requires share == base + bump && (bump == 0 || bump == 1)
    requires total * base + frac == exact && 0 <= frac < total
    ensures total * share > exact <==> bump == 1
  {
    Distribute(total, base, bump);
  }

  /** A share never exceeds a whole number its exact value does not exceed. */
  lemma ShareAtMost(target: nat, rcs: seq<Resizable>, i: nat, bound: int)
    requires RequestsValid(rcs) && 0 < PodRequest(rcs) <= target && i < |rcs|
    requires target * rcs[i].request <= bound * PodRequest(rcs)
    ensures Share(target, rcs, i) <= bound
  {
    ShareIsProRata(target, rcs, i);
    AtMostWhole(PodRequest(rcs), Share(target, rcs, i), target * rcs[i].request, bound);
  }

  lemma AtMostWhole(total: int, share: int, exact: int, bound: int)
    requires total > 0 && total * share < exact + total && exact <= bound * total
    ensures share <= bound
  {
    Distribute(total, bound, 1);
    ScaleLess(total, share, bound + 1);
  }

  /** Splitting the request itself gives every container exactly its request. */
  lemma SplitOfRequest(rcs: seq<Resizable>, i: nat)
    requires RequestsValid(rcs) && PodRequest(rcs) > 0 && i < |rcs|
    ensures Share(PodRequest(rcs), rcs, i) == rcs[i].request
  {
    ShareIsProRata(PodRequest(rcs), rcs, i);
    ShareAtMost(PodRequest(rcs), rcs, i, rcs[i].request);
  }

  // ---- The split as computed ----

  /** `out` maps exactly the first `n` containers that request CPU, to these values. */
  ghost predicate Holds(out: map<string, int>, rcs: seq<Resizable>, n: nat, values: seq<int>)
    requires n <= |rcs| == |values|
  {
    && (forall name :: name in out <==> exists i :: 0 <= i < n && rcs[i].request > 0 && rcs[i].name == name)
    && (forall i :: 0 <= i < n && rcs[i].request > 0 ==> out[rcs[i].name] == values[i])
  }

  lemma HoldsOneMore(out: map<string, int>, rcs: seq<Resizable>, n: nat, values: seq<int>)
    requires n < |rcs| == |values| && DistinctNames(rcs) && Holds(out, rcs, n, values)
    ensures Holds(if rcs[n].request > 0 then out[rcs[n].name := values[n]] else out, rcs, n + 1, values)
  {
    if rcs[n].request > 0 {
      var after := out[rcs[n].name := values[n]];
      forall name
        ensures name in after <==> exists i :: 0 <= i < n + 1 && rcs[i].request > 0 && rcs[i].name == name
      {
        if name == rcs[n].name {
          assert 0 <= n < n + 1 && rcs[n].request > 0 && rcs[n].name == name;
        }
      }
    }
  }

  lemma BumpOneMore(out: map<string, int>, rcs: seq<Resizable>, values: seq<int>, winners: set<nat>, j: nat)
    requires |values| == |rcs| && DistinctNames(rcs) && j < |rcs| && rcs[j].request > 0 && j !in winners
    requires Holds(out, rcs, |rcs|, Bumped(values, winners))
    ensures rcs[j].name in out
    ensures Holds(out[rcs[j].name := out[rcs[j].name] + 1], rcs, |rcs|, Bumped(values, winners + {j}))
  {
    assert rcs[j].name in out;
    var after := out[rcs[j].name := out[rcs[j].name] + 1];
    forall i | 0 <= i < |rcs| && rcs[i].request > 0
      ensures rcs[i].name in after && after[rcs[i].name] == Bumped(values, winners + {j})[i]
    {
      assert rcs[i].name in out && out[rcs[i].name] == Bumped(values, winners)[i];
    }
  }

  /** What the first loop of `splitLimit` leaves: floored shares, what they add up to, and what
      flooring dropped. */
  ghost predicate IsFloored(out: map<string, int>, given: int, rems: seq<Remainder>, target: nat, rcs: seq<Resizable>,
                            total: int)
    requires total > 0
  {
    && Holds(out, rcs, |rcs|, Bases(target, rcs, total))
    && given == Sum(Bases(target, rcs, total))
    && rems == Remainders(rcs, Fracs(target, rcs, total))
  }

  /** The first loop of `splitLimit`: floored shares and their remainders. */
  method FloorShares(target: nat, rcs: seq<Resizable>, total: int)
    returns (out: map<string, int>, given: int, rems: seq<Remainder>)
    requires DistinctNames(rcs) && total > 0
    ensures IsFloored(out, given, rems, target, rcs, total)
  {
    ghost var bases, fracs := Bases(target, rcs, total), Fracs(target, rcs, total);
    out, given, rems := map[], 0, [];
    for i := 0 to |rcs|
      invariant Holds(out, rcs, i, bases)
      invariant given == Sum(bases[..i])
      invariant rems == Remainders(rcs[..i], fracs[..i])
    {
      assert bases[..i + 1][..i] == bases[..i];
      assert rcs[..i + 1][..i] == rcs[..i] && fracs[..i + 1][..i] == fracs[..i];
      HoldsOneMore(out, rcs, i, bases);
      var c := rcs[i];
      if c.request <= 0 {
        continue;
      }
      var base, frac := Base(target, c.request, total), Frac(target, c.request, total);
      assert base == bases[i] && frac == fracs[i];
      out := out[c.name := base];
      given := given + base;
      rems := rems + [Remainder(i, frac)];
    }
    assert bases[..|rcs|] == bases && rcs[..|rcs|] == rcs && fracs[..|rcs|] == fracs;
  }

  ghost function Bumped(values: seq<int>, winners: set<nat>): (b: seq<int>)
    ensures |b| == |values| && forall i :: 0 <= i < |values| ==> b[i] == values[i] + (if i in winners then 1 else 0)
  {
    seq(|values|, i requires 0 <= i < |values| => values[i] + (if i in winners then 1 else 0))
  }

  lemma NoWrap(i: nat, n: nat)
    requires i < n
    ensures i % n == i
  {
  }

  lemma {:induction false} OneMoreWinner(out: map<string, int>, rcs: seq<Resizable>, values: seq<int>,
                                         ranked: seq<Remainder>, i: nat, name: string)
    requires |values| == |rcs| && DistinctNames(rcs) && DistinctIdx(ranked) && i < |ranked|
    requires ranked[i].idx < |rcs| && rcs[ranked[i].idx].request > 0 && rcs[ranked[i].idx].name == name
    requires Holds(out, rcs, |rcs|, Bumped(values, Winners(ranked, i)))
    ensures name in out
    ensures Holds(out[name := out[name] + 1], rcs, |rcs|, Bumped(values, Winners(ranked, i + 1)))
  {
    assert Winners(ranked, i + 1) == Winners(ranked, i) + {ranked[i].idx};
    BumpOneMore(out, rcs, values, Winners(ranked, i), ranked[i].idx);
  }

  lemma {:induction false} NoneToHandOut(bases: seq<int>, ranked: seq<Remainder>, left: int)
    requires left <= 0
    ensures Bumped(bases, Winners(ranked, left)) == bases
  {
    assert Winners(ranked, left) == {};
  }

  /** The last loop of `splitLimit`: one milli-core each, in rank order. */
  method HandOut(floored: map<string, int>, rcs: seq<Resizable>, ranked: seq<Remainder>, leftover: int,
                 ghost values: seq<int>)
    returns (out: map<string, int>)
    requires DistinctNames(rcs) && |values| == |rcs| && Holds(floored, rcs, |rcs|, values)
    requires DistinctIdx(ranked) && 0 <= leftover < |ranked|
    requires forall k :: 0 <= k < |ranked| ==> ranked[k].idx < |rcs| && rcs[ranked[k].idx].request > 0
    ensures Holds(out, rcs, |rcs|, Bumped(values, Winners(ranked, leftover)))
  {
    out := floored;
    NoneToHandOut(values, ranked, 0);
    for i := 0 to leftover
      invariant Holds(out, rcs, |rcs|, Bumped(values, Winners(ranked, i)))
    {
      NoWrap(i, |ranked|);
      var name := rcs[ranked[i % |ranked|].idx].name;
      OneMoreWinner(out, rcs, values, ranked, i, name);
      out := out[name := out[name] + 1];
    }
  }

  /** The shares are the floored ones and a milli-core for each winner. */
  lemma {:induction false} SharesAreBumped(target: nat, rcs: seq<Resizable>)
    requires PodRequest(rcs) > 0
    ensures Shares(target, rcs) ==
            Bumped(Bases(target, rcs, PodRequest(rcs)), Winners(Ranked(target, rcs), Leftover(target, rcs)))
  {
  }

  /** Everything the hand-out needs to know of the ranking. */
  lemma {:induction false} HandOutPlan(target: nat, rcs: seq<Resizable>)
    requires RequestsValid(rcs) && PodRequest(rcs) > 0
    ensures var ranked := Ranked(target, rcs);
      && DistinctIdx(ranked) && Leftover(target, rcs) < |ranked|
      && forall k :: 0 <= k < |ranked| ==> ranked[k].idx < |rcs| && rcs[ranked[k].idx].request > 0
  {
    LeftoverNeverWraps(target, rcs);
    RankedShape(target, rcs);
  }

  /** The containers that request CPU with their shares, and no others; nothing where none does. */
  ghost predicate IsSplit(out: map<string, int>, target: nat, rcs: seq<Resizable>) {
    if PodRequest(rcs) <= 0 then out == map[] else Holds(out, rcs, |rcs|, Shares(target, rcs))
  }

  /** `splitLimit`: floored shares first, then the leftover by largest remainder. */
  method SplitLimit(target: nat, rcs: seq<Resizable>) returns (out: map<string, int>)
    requires RequestsValid(rcs) && DistinctNames(rcs)
    ensures IsSplit(out, target, rcs)
  {
    var totalReq := SumRequests(rcs);
    if totalReq <= 0 || |rcs| == 0 {
      return map[];
    }
    var floored, given, rems := FloorShares(target, rcs, totalReq);
    var leftover := target - given;
    ghost var bases := Bases(target, rcs, totalReq);
    HandOutPlan(target, rcs);
    SharesAreBumped(target, rcs);
    if leftover <= 0 {
      NoneToHandOut(bases, Sort(rems), leftover);
      return floored;
    }
    out := HandOut(floored, rcs, Sort(rems), leftover, bases);
  }
}
