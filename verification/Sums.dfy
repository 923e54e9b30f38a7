/** Sums of integer sequences, and what scaling does to them. */
module Sums {

  function Sum(s: seq<int>): int {
    if s == [] then 0 else Sum(s[..|s| - 1]) + s[|s| - 1]
  }

  lemma SumSnoc(s: seq<int>, x: int)
    ensures Sum(s + [x]) == Sum(s) + x
  {
    assert (s + [x])[..|s|] == s;
  }

  lemma {:induction false} SumConcat(s: seq<int>, t: seq<int>)
    ensures Sum(s + t) == Sum(s) + Sum(t)
  {
    if t == [] {
      assert s + t == s;
    } else {
      assert (s + t)[..|s + t| - 1] == s + t[..|t| - 1];
      SumConcat(s, t[..|t| - 1]);
    }
  }

  lemma {:induction false} SumPointwise(s: seq<int>, t: seq<int>, u: seq<int>)
    requires |s| == |t| == |u| && forall i :: 0 <= i < |s| ==> u[i] == s[i] + t[i]
    ensures Sum(u) == Sum(s) + Sum(t)
  {
    if s != [] {
      SumPointwise(s[..|s| - 1], t[..|t| - 1], u[..|u| - 1]);
    }
  }

  lemma {:induction false} SumAtMost(s: seq<int>, t: seq<int>)
    requires |s| == |t| && forall i :: 0 <= i < |s| ==> s[i] <= t[i]
    ensures Sum(s) <= Sum(t)
    ensures Sum(s) == Sum(t) <==> s == t
  {
    if s == [] {
      assert s == t;
    } else {
      var s', t' := s[..|s| - 1], t[..|t| - 1];
      SumAtMost(s', t');
      assert s == s' + [s[|s| - 1]] && t == t' + [t[|t| - 1]];
    }
  }

  lemma {:induction false} SumsMatch(s: seq<int>, t: seq<int>)
    requires |s| == |t| && forall i :: 0 <= i < |s| ==> s[i] <= t[i]
    ensures Sum(s) == Sum(t) <==> forall i :: 0 <= i < |s| ==> s[i] == t[i]
  {
    SumAtMost(s, t);
  }

  lemma Distribute(a: int, x: int, y: int)
    ensures a * (x + y) == a * x + a * y
  {
  }

  lemma Scale(a: int, x: int, y: int)
    requires a >= 0 && x <= y
    ensures a * x <= a * y
  {
    assert a * (y - x) >= 0;
  }

  lemma ScaleLess(a: int, x: int, y: int)
    requires a > 0 && a * x < a * y
    ensures x < y
  {
    if x >= y {
      Scale(a, y, x);
    }
  }

  lemma {:induction false} SumBound(s: seq<int>, bound: int)
    requires forall i :: 0 <= i < |s| ==> 0 <= s[i] <= bound
    ensures 0 <= Sum(s) <= bound * |s|
  {
    if s != [] {
      SumBound(s[..|s| - 1], bound);
      Distribute(bound, |s| - 1, 1);
    }
  }

  /** Where every term of one scaled sum covers the matching term of another, so do the sums. */
  lemma {:induction false} ScaledSums(a: int, kept: seq<int>, lost: seq<int>, b: int, owed: seq<int>)
    requires |kept| == |lost| == |owed|
    requires forall i :: 0 <= i < |kept| ==> a * kept[i] + lost[i] >= b * owed[i]
    ensures a * Sum(kept) + Sum(lost) >= b * Sum(owed)
    ensures (forall i :: 0 <= i < |kept| ==> a * kept[i] + lost[i] == b * owed[i]) ==>
              a * Sum(kept) + Sum(lost) == b * Sum(owed)
  {
    if kept != [] {
      var n := |kept| - 1;
      ScaledSums(a, kept[..n], lost[..n], b, owed[..n]);
      Distribute(a, Sum(kept[..n]), kept[n]);
      Distribute(b, Sum(owed[..n]), owed[n]);
    }
  }

  /** Counting the members of a set of indices one index at a time. */
  lemma {:induction false} SumOfIndicator(bumps: seq<int>, members: set<nat>)
    requires forall m :: m in members ==> m < |bumps|
    requires forall i :: 0 <= i < |bumps| ==> bumps[i] == if i in members then 1 else 0
    ensures Sum(bumps) == |members|
  {
    if bumps == [] {
      assert members == {};
    } else {
      var n := |bumps| - 1;
      SumOfIndicator(bumps[..n], members - {n});
    }
  }

  // ---- Products of reals ----

  lemma RealScale(a: real, x: real, y: real)
    requires a >= 0.0 && x <= y
    ensures a * x <= a * y
  {
    assert a * (y - x) >= 0.0;
  }

  lemma RealScaleLess(a: real, x: real, y: real)
    requires a > 0.0 && x < y
    ensures a * x < a * y
  {
    assert a * (y - x) > 0.0;
  }
}
