/** A pod's target split over its containers in whole milli-cores, the largest remainders taking
    what flooring left over (`internal/controller/podinput.go`, `splitLimit`). */
module Split {
  import opened Eligibility
  import opened Sums

  // ---- Flooring ----

  /** A request's exact share of the target, floored. */
  function Floor(target: nat, request: int, total: int): int
    requires total > 0
  {
    target * request / total
  }

  /** What that floor drops, as a numerator over the pod's total request. */
  function Frac(target: nat, request: int, total: int): int
    requires total > 0
  {
    target * request % total
  }

  /** The floored share, never below the request. Containers that request nothing get none. */
  function Base(target: nat, request: int, total: int): int
    requires total > 0
  {
    if request <= 0 then 0
    else if Floor(target, request, total) > request then Floor(target, request, total)
    else request
  }

  function Requests(rcs: seq<Resizable>): (r: seq<int>)
    ensures |r| == |rcs| && forall i :: 0 <= i < |rcs| ==> r[i] == rcs[i].request
  {
    seq(|rcs|, i requires 0 <= i < |rcs| => rcs[i].request)
  }

  function Bases(target: nat, rcs: seq<Resizable>, total: int): (b: seq<int>)
    requires total > 0
    ensures |b| == |rcs| && forall i :: 0 <= i < |rcs| ==> b[i] == Base(target, rcs[i].request, total)
  {
    seq(|rcs|, i requires 0 <= i < |rcs| => Base(target, rcs[i].request, total))
  }

  function Fracs(target: nat, rcs: seq<Resizable>, total: int): (f: seq<int>)
    requires total > 0
    ensures |f| == |rcs| && forall i :: 0 <= i < |rcs| ==> f[i] == Frac(target, rcs[i].request, total)
  {
    seq(|rcs|, i requires 0 <= i < |rcs| => Frac(target, rcs[i].request, total))
  }

  // ---- The order leftovers are handed out in ----

  datatype Remainder = Remainder(idx: nat, frac: int)

  /** One remainder for each container that requests CPU, in container order. */
  function Remainders(rcs: seq<Resizable>, fracs: seq<int>): seq<Remainder>
    requires |fracs| == |rcs|
  {
    if rcs == [] then []
    else
      var i := |rcs| - 1;
      Remainders(rcs[..i], fracs[..i]) + (if rcs[i].request > 0 then [Remainder(i, fracs[i])] else [])
  }

  /** Larger remainder first, ties in container order. */
  predicate Ahead(a: Remainder, b: Remainder) {
    a.frac > b.frac || (a.frac == b.frac && a.idx < b.idx)
  }

  function Insert(r: Remainder, sorted: seq<Remainder>): seq<Remainder> {
    if sorted == [] then [r]
    else if Ahead(r, sorted[0]) then [r] + sorted
    else [sorted[0]] + Insert(r, sorted[1..])
  }

  /** What the standard library's stable sort yields. */
  function Sort(rems: seq<Remainder>): seq<Remainder> {
    if rems == [] then [] else Insert(rems[|rems| - 1], Sort(rems[..|rems| - 1]))
  }

  ghost predicate Sorted(rems: seq<Remainder>) {
    forall i, j :: 0 <= i < j < |rems| ==> Ahead(rems[i], rems[j])
  }

  ghost predicate DistinctIdx(rems: seq<Remainder>) {
    forall i, j :: 0 <= i < j < |rems| ==> rems[i].idx != rems[j].idx
  }

  lemma {:induction false} InsertSorts(r: Remainder, sorted: seq<Remainder>)
    requires Sorted(sorted) && forall x :: x in sorted ==> x.idx != r.idx
    ensures Sorted(Insert(r, sorted)) && |Insert(r, sorted)| == |sorted| + 1
    ensures multiset(Insert(r, sorted)) == multiset(sorted) + multiset{r}
  {
    if sorted == [] {
    } else if Ahead(r, sorted[0]) {
      assert multiset([r] + sorted) == multiset{r} + multiset(sorted);
    } else {
      var head, tail := sorted[0], sorted[1..];
      assert sorted == [head] + tail;
      InsertSorts(r, tail);
      var rest := Insert(r, tail);
      forall x | x in rest ensures Ahead(head, x) {
        assert x in multiset(rest);
        assert x == r || x in multiset(tail);
        if x != r {
          assert x in tail;
        }
      }
    }
  }

  /** Sorting permutes the remainders into order. */
  lemma {:induction false} SortSorts(rems: seq<Remainder>)
    requires DistinctIdx(rems)
    ensures Sorted(Sort(rems)) && multiset(Sort(rems)) == multiset(rems) && |Sort(rems)| == |rems|
  {
    if rems != [] {
      var front, last := rems[..|rems| - 1], rems[|rems| - 1];
      assert rems == front + [last];
      SortSorts(front);
      forall x | x in Sort(front) ensures x.idx != last.idx {
        assert x in multiset(Sort(front));
        assert x in front;
      }
      InsertSorts(last, Sort(front));
    }
  }

  lemma {:induction false} RemaindersShape(rcs: seq<Resizable>, fracs: seq<int>)
    requires |fracs| == |rcs|
    ensures DistinctIdx(Remainders(rcs, fracs)) && |Remainders(rcs, fracs)| <= |rcs|
    ensures forall r :: r in Remainders(rcs, fracs) ==>
      r.idx < |rcs| && rcs[r.idx].request > 0 && r.frac == fracs[r.idx]
    ensures forall i :: 0 <= i < |rcs| && rcs[i].request > 0 ==> Remainder(i, fracs[i]) in Remainders(rcs, fracs)
  {
    if rcs != [] {
      RemaindersShape(rcs[..|rcs| - 1], fracs[..|rcs| - 1]);
    }
  }

  // ---- Shares ----

  /** What flooring leaves over. */
  function Leftover(target: nat, rcs: seq<Resizable>): int
    requires PodRequest(rcs) > 0
  {
    target - Sum(Bases(target, rcs, PodRequest(rcs)))
  }

  function Ranked(target: nat, rcs: seq<Resizable>): seq<Remainder>
    requires PodRequest(rcs) > 0
  {
    Sort(Remainders(rcs, Fracs(target, rcs, PodRequest(rcs))))
  }

  /** The containers that get a milli-core of the leftover. */
  ghost function Winners(ranked: seq<Remainder>, left: int): set<nat> {
    set k | 0 <= k < |ranked| && k < left :: ranked[k].idx
  }

  /** The limit the split gives a container. */
  ghost function Share(target: nat, rcs: seq<Resizable>, i: nat): int
    requires PodRequest(rcs) > 0 && i < |rcs|
  {
    Base(target, rcs[i].request, PodRequest(rcs))
      + (if i in Winners(Ranked(target, rcs), Leftover(target, rcs)) then 1 else 0)
  }

  // ---- Accounting ----

  lemma FloorAndFrac(target: nat, request: int, total: int)
    requires total > 0
    ensures total * Floor(target, request, total) + Frac(target, request, total) == target * request
    ensures 0 <= Frac(target, request, total) < total
  {
  }

  /** Flooring loses exactly the remainder where the target covers the pod's request; a share held
      up to its request loses less. */
  lemma BaseLosesFrac(target: nat, request: int, total: int)
    requires total > 0 && request >= 0
    ensures total * Base(target, request, total) + Frac(target, request, total) >= target * request
    ensures total <= target ==>
      && total * Base(target, request, total) + Frac(target, request, total) == target * request
      && Base(target, request, total) == Floor(target, request, total)
    ensures request == 0 ==> Frac(target, request, total) == 0
  {
    FloorAndFrac(target, request, total);
    var floor := Floor(target, request, total);
    if request == 0 {
      FloorOfNothing(target, total);
    } else if floor < request {
      Scale(total, floor + 1, request);
      Distribute(total, floor, 1);
      if total <= target {
        Scale(request, total, target);
      }
    }
  }

  lemma FloorOfNothing(target: nat, total: int)
    requires total > 0
    ensures Floor(target, 0, total) == 0 && Frac(target, 0, total) == 0
  {
    assert target * 0 == 0;
  }

  lemma {:induction false} PodRequestIsSum(rcs: seq<Resizable>)
    ensures PodRequest(rcs) == Sum(Requests(rcs))
  {
    if rcs != [] {
      PodRequestIsSum(rcs[..|rcs| - 1]);
      assert Requests(rcs)[..|rcs| - 1] == Requests(rcs[..|rcs| - 1]);
    }
  }

  lemma {:induction false} SomeRemainder(rcs: seq<Resizable>, fracs: seq<int>)
    requires |fracs| == |rcs| && PodRequest(rcs) > 0
    ensures Remainders(rcs, fracs) != []
  {
    if rcs[|rcs| - 1].request <= 0 {
      SomeRemainder(rcs[..|rcs| - 1], fracs[..|rcs| - 1]);
    }
  }

  function FracsOf(rems: seq<Remainder>): (f: seq<int>)
    ensures |f| == |rems| && forall i :: 0 <= i < |rems| ==> f[i] == rems[i].frac
  {
    seq(|rems|, i requires 0 <= i < |rems| => rems[i].frac)
  }

  /** Only containers that request CPU have something to lose. */
  lemma {:induction false} RemaindersHoldFracs(rcs: seq<Resizable>, fracs: seq<int>)
    requires |fracs| == |rcs|
    requires forall i :: 0 <= i < |rcs| && rcs[i].request <= 0 ==> fracs[i] == 0
    ensures Sum(FracsOf(Remainders(rcs, fracs))) == Sum(fracs)
  {
    if rcs != [] {
      var n := |rcs| - 1;
      RemaindersHoldFracs(rcs[..n], fracs[..n]);
      if rcs[n].request > 0 {
        var rest := Remainders(rcs[..n], fracs[..n]);
        assert FracsOf(rest + [Remainder(n, fracs[n])]) == FracsOf(rest) + [fracs[n]];
        SumSnoc(FracsOf(rest), fracs[n]);
      } else {
        assert Remainders(rcs, fracs) == Remainders(rcs[..n], fracs[..n]);
      }
    }
  }

  lemma BasesLoseFracs(target: nat, rcs: seq<Resizable>, total: int)
    requires RequestsValid(rcs) && total > 0
    ensures var bases, fracs, requests := Bases(target, rcs, total), Fracs(target, rcs, total), Requests(rcs);
      && (forall i :: 0 <= i < |rcs| ==> total * bases[i] + fracs[i] >= target * requests[i])
      && (total <= target ==> forall i :: 0 <= i < |rcs| ==> total * bases[i] + fracs[i] == target * requests[i])
      && (forall i :: 0 <= i < |rcs| ==> 0 <= fracs[i] <= total - 1)
      && (forall i :: 0 <= i < |rcs| && rcs[i].request <= 0 ==> fracs[i] == 0)
  {
    forall i | 0 <= i < |rcs|
      ensures total * Bases(target, rcs, total)[i] + Fracs(target, rcs, total)[i] >= target * Requests(rcs)[i]
      ensures total <= target ==>
        total * Bases(target, rcs, total)[i] + Fracs(target, rcs, total)[i] == target * Requests(rcs)[i]
      ensures 0 <= Fracs(target, rcs, total)[i] <= total - 1
      ensures rcs[i].request <= 0 ==> Fracs(target, rcs, total)[i] == 0
    {
      FloorAndFrac(target, rcs[i].request, total);
      BaseLosesFrac(target, rcs[i].request, total);
    }
  }

  /** Total request times leftover is what the remainders sum to. */
  lemma LeftoverIsLost(target: nat, rcs: seq<Resizable>)
    requires RequestsValid(rcs) && PodRequest(rcs) > 0
    ensures var total := PodRequest(rcs); var lost := Sum(Fracs(target, rcs, total));
            && total * Leftover(target, rcs) <= lost
            && (total <= target ==> total * Leftover(target, rcs) == lost)
  {
    var total := PodRequest(rcs);
    BasesLoseFracs(target, rcs, total);
    PodRequestIsSum(rcs);
    LeftoverOf(target, total, Bases(target, rcs, total), Fracs(target, rcs, total), Requests(rcs));
  }

  lemma LeftoverOf(target: nat, total: int, bases: seq<int>, fracs: seq<int>, requests: seq<int>)
    requires |bases| == |fracs| == |requests| && total == Sum(requests)
    requires forall i :: 0 <= i < |bases| ==> total * bases[i] + fracs[i] >= target * requests[i]
    ensures total * (target - Sum(bases)) <= Sum(fracs)
    ensures (forall i :: 0 <= i < |bases| ==> total * bases[i] + fracs[i] == target * requests[i]) ==>
              total * (target - Sum(bases)) == Sum(fracs)
  {
    ScaledSums(total, bases, fracs, target, requests);
    Distribute(total, target, -Sum(bases));
  }

  lemma {:induction false} RemaindersSum(rcs: seq<Resizable>, fracs: seq<int>, most: int)
    requires |fracs| == |rcs| && most >= 0
    requires forall i :: 0 <= i < |rcs| ==> 0 <= fracs[i] <= most
    requires forall i :: 0 <= i < |rcs| && rcs[i].request <= 0 ==> fracs[i] == 0
    ensures 0 <= Sum(fracs) <= most * |Remainders(rcs, fracs)|
  {
    var rems := Remainders(rcs, fracs);
    RemaindersHoldFracs(rcs, fracs);
    RemaindersShape(rcs, fracs);
    forall i | 0 <= i < |rems| ensures 0 <= FracsOf(rems)[i] <= most {
      assert rems[i] in rems;
    }
    SumBound(FracsOf(rems), most);
  }

  lemma {:induction false} RemaindersBound(rcs: seq<Resizable>, fracs: seq<int>, most: int)
    requires |fracs| == |rcs| && PodRequest(rcs) > 0 && most >= 0
    requires forall i :: 0 <= i < |rcs| ==> 0 <= fracs[i] <= most
    requires forall i :: 0 <= i < |rcs| && rcs[i].request <= 0 ==> fracs[i] == 0
    ensures var n := |Sort(Remainders(rcs, fracs))|; 0 < n && 0 <= Sum(fracs) <= most * n
  {
    RemaindersSum(rcs, fracs, most);
    SomeRemainder(rcs, fracs);
    RemaindersShape(rcs, fracs);
    SortSorts(Remainders(rcs, fracs));
  }

  /** The leftover is always less than the number of containers it is handed to, so handing it out
      never goes around twice. */
  lemma LeftoverNeverWraps(target: nat, rcs: seq<Resizable>)
    requires RequestsValid(rcs) && PodRequest(rcs) > 0
    ensures Leftover(target, rcs) < |Ranked(target, rcs)|
    ensures PodRequest(rcs) <= target ==> Leftover(target, rcs) >= 0
  {
    var total := PodRequest(rcs);
    var fracs := Fracs(target, rcs, total);
    LeftoverIsLost(target, rcs);
    BasesLoseFracs(target, rcs, total);
    RemaindersBound(rcs, fracs, total - 1);
    LeftIsSmall(total, Leftover(target, rcs), Sum(fracs), |Ranked(target, rcs)|);
  }

  lemma LeftIsSmall(total: int, left: int, lost: int, n: int)
    requires total > 0 && n > 0 && 0 <= lost <= (total - 1) * n && total * left <= lost
    ensures left < n
    ensures total * left == lost ==> left >= 0
  {
    Distribute(n, total, -1);
    ScaleLess(total, left, n);
    if left < 0 {
      Scale(total, left, -1);
    }
  }
}
