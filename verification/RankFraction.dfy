/** The fraction of a rank key, and the shortest fraction between two others
    (`scripts/queue.py`, `midpoint`). */
module RankFraction {
  import opened RankText

  /** A digit string no trailing zero makes longer than it has to be. */
  predicate IsFraction(s: string) {
    AllDigits(s) && (s != "" ==> s[|s| - 1] != '0')
  }

  /** A fraction's digit, or zero where it has ended. */
  function DigitAt(s: string, i: nat): char {
    if i < |s| then s[i] else '0'
  }

  function From(s: string, n: nat): string {
    if n <= |s| then s[n..] else ""
  }

  /** How much of `hi` the zero-padded `lo` begins with. */
  function Shared(lo: string, hi: string): (n: nat)
    ensures n <= |hi|
    ensures forall k :: 0 <= k < n ==> DigitAt(lo, k) == hi[k]
    ensures n < |hi| ==> DigitAt(lo, n) != hi[n]
  {
    if hi == "" || DigitAt(lo, 0) != hi[0] then 0
    else
      var rest := Shared(From(lo, 1), hi[1..]);
      assert forall k :: 0 < k < |hi| ==> DigitAt(lo, k) == DigitAt(From(lo, 1), k - 1) && hi[k] == hi[1..][k - 1];
      1 + rest
  }

  /** A fraction strictly between `lo` and `hi`, where an empty `hi` is the top. */
  function Midpoint(lo: string, hi: string): (m: string)
    requires AllDigits(lo) && AllDigits(hi)
    ensures m != "" && AllDigits(m)
    decreases |hi|, |lo|
  {
    var n := Shared(lo, hi);
    if n > 0 then hi[..n] + Midpoint(From(lo, n), hi[n..])
    else
      var lead := if lo != "" then DigitValue(lo[0]) else 0;
      var limit := if hi != "" then DigitValue(hi[0]) else RADIX;
      if limit - lead > 1 then [DigitChar((lead + limit) / 2)]
      else if |hi| > 1 then hi[..1]
      else [DigitChar(lead)] + Midpoint(From(lo, 1), "")
  }

  /** `midpoint`, with the loop that counts the shared prefix. */
  method ComputeMidpoint(lo: string, hi: string) returns (m: string)
    requires AllDigits(lo) && AllDigits(hi)
    ensures m == Midpoint(lo, hi)
    decreases |hi|, |lo|
  {
    if hi != "" {
      var n := 0;
      while n < |hi| && DigitAt(lo, n) == hi[n]
        invariant n <= Shared(lo, hi)
      {
        n := n + 1;
      }
      if n > 0 {
        var rest := ComputeMidpoint(From(lo, n), hi[n..]);
        return hi[..n] + rest;
      }
    }
    var lead := if lo != "" then DigitValue(lo[0]) else 0;
    var limit := if hi != "" then DigitValue(hi[0]) else RADIX;
    if limit - lead > 1 {
      return [DigitChar((lead + limit) / 2)];
    }
    if |hi| > 1 {
      return hi[..1];
    }
    var rest := ComputeMidpoint(From(lo, 1), "");
    return [DigitChar(lead)] + rest;
  }

  /** Fraction order with unwritten digits read as zero. An empty `hi` is the top. */
  ghost predicate Precedes(lo: string, hi: string)
    requires AllDigits(lo) && AllDigits(hi)
  {
    hi == "" || (var n := Shared(lo, hi); n < |hi| && DigitAt(lo, n) < hi[n])
  }

  ghost predicate Between(lo: string, m: string, hi: string) {
    Less(lo, m) && (hi == "" || Less(m, hi))
  }

  /** Between fractions, padded order is string order. */
  lemma {:induction false} PrecedesIsLess(lo: string, hi: string)
    requires IsFraction(lo) && IsFraction(hi) && hi != ""
    ensures Precedes(lo, hi) <==> Less(lo, hi)
  {
    if DigitAt(lo, 0) == hi[0] && hi[1..] != "" {
      PrecedesIsLess(From(lo, 1), hi[1..]);
      PrecedesShift(lo, hi);
      if lo != "" {
        LessPrefix([hi[0]], lo[1..], hi[1..]);
      } else {
        LessNonEmpty(hi[1..]);
      }
    }
  }

  lemma LessNonEmpty(s: string)
    ensures Less("", s) <==> s != ""
  {
  }

  lemma PrecedesShift(lo: string, hi: string)
    requires AllDigits(lo) && AllDigits(hi) && hi != "" && hi[1..] != "" && DigitAt(lo, 0) == hi[0]
    ensures Shared(lo, hi) == 1 + Shared(From(lo, 1), hi[1..])
    ensures Precedes(lo, hi) <==> Precedes(From(lo, 1), hi[1..])
  {
    assert Shared(lo, hi) == 1 + Shared(From(lo, 1), hi[1..]);
    assert forall k :: 0 < k < |hi| ==> DigitAt(lo, k) == DigitAt(From(lo, 1), k - 1) && hi[k] == hi[1..][k - 1];
  }

  // ---- Dropping the shared prefix ----

  /** Comparing against text that begins with the shared prefix is comparing what follows it. */
  lemma LessAfterShared(lo: string, prefix: string, rest: string)
    requires rest != ""
    requires forall k :: 0 <= k < |prefix| ==> DigitAt(lo, k) == prefix[k]
    ensures Less(lo, prefix + rest) <==> Less(From(lo, |prefix|), rest)
  {
    var n := |prefix|;
    if n <= |lo| {
      assert forall k :: 0 <= k < n ==> lo[k] == DigitAt(lo, k);
      assert lo == prefix + lo[n..];
      LessPrefix(prefix, lo[n..], rest);
    } else {
      assert forall k :: 0 <= k < |lo| ==> lo[k] == DigitAt(lo, k);
      assert prefix + rest == lo + (prefix[|lo|..] + rest);
      LessExtension(lo, prefix[|lo|..] + rest);
    }
  }

  lemma SharedIsDropped(lo: string, hi: string)
    requires AllDigits(lo) && AllDigits(hi)
    ensures var n := Shared(lo, hi);
            Shared(From(lo, n), hi[n..]) == 0 && (n < |hi| ==> (Precedes(lo, hi) <==> Precedes(From(lo, n), hi[n..])))
  {
    var n := Shared(lo, hi);
    if n < |hi| {
      assert DigitAt(From(lo, n), 0) == DigitAt(lo, n) && hi[n..][0] == hi[n];
    }
  }

  // ---- The midpoint lies strictly between, exactly when there is room ----

  /** `midpoint` lands strictly between its bounds exactly when `lo` comes before `hi`
      as a fraction, and then never ends in zero. */
  lemma {:induction false} MidpointIsBetween(lo: string, hi: string)
    requires AllDigits(lo) && AllDigits(hi)
    ensures Between(lo, Midpoint(lo, hi), hi) <==> Precedes(lo, hi)
    ensures Precedes(lo, hi) ==> IsFraction(Midpoint(lo, hi))
    decreases |hi|, |lo|
  {
    var n := Shared(lo, hi);
    if n > 0 {
      var m := Midpoint(From(lo, n), hi[n..]);
      if n == |hi| {
        assert hi[..n] == hi;
        LessExtension(hi, m);
        LessAsymmetric(hi, hi + m);
      } else {
        MidpointIsBetween(From(lo, n), hi[n..]);
        SharedIsDropped(lo, hi);
        assert hi == hi[..n] + hi[n..];
        LessPrefix(hi[..n], m, hi[n..]);
        LessAfterShared(lo, hi[..n], m);
      }
    } else {
      MidpointWithoutPrefix(lo, hi);
    }
  }

  lemma {:induction false} MidpointWithoutPrefix(lo: string, hi: string)
    requires AllDigits(lo) && AllDigits(hi) && Shared(lo, hi) == 0
    ensures Between(lo, Midpoint(lo, hi), hi) <==> Precedes(lo, hi)
    ensures Precedes(lo, hi) ==> IsFraction(Midpoint(lo, hi))
    decreases |hi|, |lo|, 0
  {
    var lead := if lo != "" then DigitValue(lo[0]) else 0;
    var limit := if hi != "" then DigitValue(hi[0]) else RADIX;
    if limit - lead > 1 {
      assert lead < (lead + limit) / 2 < limit;
      DigitRoundTrip((lead + limit) / 2);
      OneDigitBetween(lo, DigitChar((lead + limit) / 2), hi);
    } else if |hi| > 1 {
      HighDigitAlone(lo, hi);
    } else {
      var m := Midpoint(From(lo, 1), "");
      MidpointIsBetween(From(lo, 1), "");
      assert DigitChar(lead) == DigitAt(lo, 0);
      assert Midpoint(lo, hi) == [DigitAt(lo, 0)] + m;
      AboveTail(lo, m, hi);
    }
  }

  lemma DigitAtOrder(lo: string, hi: string)
    requires AllDigits(lo) && AllDigits(hi) && hi != ""
    ensures IsDigit(DigitAt(lo, 0))
    ensures DigitAt(lo, 0) < hi[0] <==> DigitValue(DigitAt(lo, 0)) < DigitValue(hi[0])
    ensures DigitValue(DigitAt(lo, 0)) == if lo != "" then DigitValue(lo[0]) else 0
  {
  }

  /** A single digit that fits in the leading gap. */
  lemma OneDigitBetween(lo: string, d: char, hi: string)
    requires AllDigits(lo) && AllDigits(hi) && IsDigit(d) && Shared(lo, hi) == 0
    requires lo != "" ==> lo[0] < d
    requires d != '0'
    requires hi != "" ==> d < hi[0]
    ensures Between(lo, [d], hi) && Precedes(lo, hi) && IsFraction([d])
  {
  }

  /** The leading digit of `hi` alone, with no room between the leading digits. */
  lemma HighDigitAlone(lo: string, hi: string)
    requires AllDigits(lo) && AllDigits(hi) && |hi| > 1 && Shared(lo, hi) == 0
    requires DigitValue(hi[0]) <= (if lo != "" then DigitValue(lo[0]) else 0) + 1
    ensures Between(lo, hi[..1], hi) <==> Precedes(lo, hi)
    ensures Precedes(lo, hi) ==> IsFraction(hi[..1])
  {
    var m := [hi[0]];
    assert hi[..1] == m && m[1..] == "";
    assert IsDigit(hi[0]) && IsDigit(DigitAt(lo, 0)) && DigitAt(lo, 0) != hi[0];
    LeadBelowDigit(lo, hi[0]);
    LessExtension(m, hi[1..]);
    assert hi == m + hi[1..];
  }

  /** Text that does not lead with a digit is below it just when its padded lead is. */
  lemma LeadBelowDigit(lo: string, d: char)
    requires AllDigits(lo) && IsDigit(d) && DigitAt(lo, 0) != d
    ensures Less(lo, [d]) <==> DigitAt(lo, 0) < d
    ensures DigitAt(lo, 0) < d ==> d != '0'
  {
    assert [d][0] == d && [d][1..] == "";
    if lo == "" {
      assert '0' <= d;
    } else {
      NothingBelowEmpty(lo[1..]);
    }
  }

  /** The leading digit of `lo`, then something above what follows it. */
  lemma AboveTail(lo: string, m: string, hi: string)
    requires AllDigits(lo) && AllDigits(hi) && |hi| <= 1 && Shared(lo, hi) == 0
    requires m != "" && IsFraction(m) && Less(From(lo, 1), m)
    ensures var whole := [DigitAt(lo, 0)] + m;
            && (Between(lo, whole, hi) <==> Precedes(lo, hi))
            && IsFraction(whole)
  {
    var d := DigitAt(lo, 0);
    var whole := [d] + m;
    assert whole[1..] == m;
    LessAfterShared(lo, [d], m);
    if hi != "" {
      DigitAtOrder(lo, hi);
      assert hi[1..] == "";
    }
  }

  // ---- No shorter fraction fits ----

  lemma NothingBelowEmpty(s: string)
    ensures !Less(s, "")
  {
  }

  /** Whatever fits between two texts that share a digit begins with that digit. */
  lemma SharedDigitIsKept(lo: string, x: string, hi: string)
    requires AllDigits(lo) && AllDigits(hi) && hi != "" && DigitAt(lo, 0) == hi[0]
    requires IsFraction(x) && Between(lo, x, hi)
    ensures x != "" && x[0] == hi[0] && IsFraction(x[1..])
    ensures Between(From(lo, 1), x[1..], hi[1..])
  {
    assert x[0] == hi[0];
    if x[1..] == "" {
      NothingBelowEmpty(From(lo, 1));
    }
  }

  lemma {:induction false} SharedPrefixIsKept(lo: string, x: string, hi: string, n: nat)
    requires AllDigits(lo) && AllDigits(hi) && n < |hi|
    requires forall k :: 0 <= k < n ==> DigitAt(lo, k) == hi[k]
    requires IsFraction(x) && Between(lo, x, hi)
    ensures n <= |x| && IsFraction(x[n..]) && Between(From(lo, n), x[n..], hi[n..])
  {
    if n > 0 {
      SharedDigitIsKept(lo, x, hi);
      SharedShifts(lo, hi, n);
      SharedPrefixIsKept(From(lo, 1), x[1..], hi[1..], n - 1);
      KeptAfterOne(lo, x, hi, n - 1);
    } else {
      assert x[0..] == x && hi[0..] == hi && From(lo, 0) == lo;
    }
  }

  lemma SharedShifts(lo: string, hi: string, n: nat)
    requires 0 < n < |hi| && forall k :: 0 <= k < n ==> DigitAt(lo, k) == hi[k]
    ensures forall k :: 0 <= k < n - 1 ==> DigitAt(From(lo, 1), k) == hi[1..][k]
  {
    forall k | 0 <= k < n - 1 ensures DigitAt(From(lo, 1), k) == hi[1..][k] {
      assert DigitAt(From(lo, 1), k) == DigitAt(lo, k + 1) && hi[1..][k] == hi[k + 1];
    }
  }

  lemma KeptAfterOne(lo: string, x: string, hi: string, n: nat)
    requires hi != "" && n < |hi[1..]| && x != "" && n <= |x[1..]|
    requires IsFraction(x[1..][n..]) && Between(From(From(lo, 1), n), x[1..][n..], hi[1..][n..])
    ensures IsFraction(x[n + 1..]) && Between(From(lo, n + 1), x[n + 1..], hi[n + 1..])
  {
    FromFrom(lo, n);
    DropDrop(x, n);
    DropDrop(hi, n);
  }

  lemma FromFrom(s: string, n: nat)
    ensures From(From(s, 1), n) == From(s, n + 1)
  {
  }

  lemma DropDrop(s: string, n: nat)
    requires n < |s|
    ensures s[1..][n..] == s[n + 1..]
  {
  }

  /** `midpoint` is of minimal length: every other fraction strictly between the bounds
      is at least as long. */
  lemma {:induction false} MidpointIsShortest(lo: string, hi: string, x: string)
    requires AllDigits(lo) && AllDigits(hi) && Precedes(lo, hi)
    requires IsFraction(x) && Between(lo, x, hi)
    ensures |Midpoint(lo, hi)| <= |x|
    decreases |hi|, |lo|
  {
    var n := Shared(lo, hi);
    if n > 0 {
      SharedPrefixIsKept(lo, x, hi, n);
      SharedIsDropped(lo, hi);
      MidpointIsShortest(From(lo, n), hi[n..], x[n..]);
    } else if hi == "" || |hi| == 1 {
      var lead := if lo != "" then DigitValue(lo[0]) else 0;
      var limit := if hi != "" then DigitValue(hi[0]) else RADIX;
      if limit - lead <= 1 {
        LeadDigitIsKept(lo, x, hi);
        MidpointIsShortest(From(lo, 1), "", x[1..]);
      }
    }
  }

  /** With no room between the leading digits, whatever fits starts with the lower one. */
  lemma LeadDigitIsKept(lo: string, x: string, hi: string)
    requires AllDigits(lo) && AllDigits(hi) && |hi| <= 1
    requires (if hi != "" then DigitValue(hi[0]) else RADIX) <= (if lo != "" then DigitValue(lo[0]) else 0) + 1
    requires IsFraction(x) && Between(lo, x, hi)
    ensures x != "" && IsFraction(x[1..]) && Less(From(lo, 1), x[1..])
  {
    DigitOrder(DigitAt(lo, 0), x[0]);
    if hi != "" {
      assert hi[1..] == "";
      NothingBelowEmpty(x[1..]);
      DigitOrder(x[0], hi[0]);
    }
    assert x[0] == DigitAt(lo, 0);
    if lo == "" {
      assert x[1..] != "";
    }
  }

  // ---- It splits the room that is left evenly ----

  predicate Fits(lo: string, x: string, hi: string) {
    IsFraction(x) && Less(lo, x) && (hi == "" || Less(x, hi))
  }

  function Lead(lo: string): nat
    requires AllDigits(lo)
  {
    if lo != "" then DigitValue(lo[0]) else 0
  }

  function Limit(hi: string): nat
    requires AllDigits(hi)
  {
    if hi != "" then DigitValue(hi[0]) else RADIX
  }

  lemma DigitAlone(lo: string, d: char)
    requires AllDigits(lo) && IsDigit(d)
    ensures Less(lo, [d]) && d != '0' <==> Lead(lo) < DigitValue(d)
    ensures IsFraction([d]) <==> d != '0'
  {
    assert [d][0] == d && [d][1..] == "";
    if lo != "" {
      DigitOrder(lo[0], d);
      NothingBelowEmpty(lo[1..]);
    }
  }

  lemma DigitBelow(d: char, hi: string)
    requires IsDigit(d) && AllDigits(hi) && hi != ""
    ensures Less([d], hi) <==> DigitValue(d) < DigitValue(hi[0]) || (|hi| > 1 && d == hi[0])
    ensures d == hi[0] <==> DigitValue(d) == DigitValue(hi[0])
  {
    assert [d][1..] == "";
    DigitOrder(d, hi[0]);
    DigitOrder(hi[0], d);
    LessNonEmpty(hi[1..]);
  }

  /** Where nothing is shared, the digits that fit alone are those above the lower lead, up to the upper
      one or, where more follows it, with it. */
  lemma AloneFits(lo: string, hi: string, e: int)
    requires AllDigits(lo) && AllDigits(hi) && 0 <= e < RADIX
    ensures Fits(lo, [DigitChar(e)], hi) <==> Lead(lo) < e < Limit(hi) + (if |hi| > 1 then 1 else 0)
  {
    DigitRoundTrip(e);
    DigitAlone(lo, DigitChar(e));
    if hi != "" {
      DigitBelow(DigitChar(e), hi);
    }
  }

  lemma FitsAfterShared(lo: string, hi: string, n: nat, y: string)
    requires AllDigits(lo) && AllDigits(hi) && n < |hi| && y != ""
    requires forall k :: 0 <= k < n ==> DigitAt(lo, k) == hi[k]
    ensures Fits(lo, hi[..n] + y, hi) <==> Fits(From(lo, n), y, hi[n..])
  {
    assert hi == hi[..n] + hi[n..];
    LessAfterShared(lo, hi[..n], y);
    LessPrefix(hi[..n], y, hi[n..]);
    assert forall k :: 0 <= k < |y| ==> (hi[..n] + y)[n + k] == y[k];
    assert AllDigits(hi[..n] + y) <==> AllDigits(y);
  }

  lemma FitsAfterLead(lo: string, hi: string, y: string)
    requires AllDigits(lo) && AllDigits(hi) && |hi| <= 1 && y != ""
    requires hi != "" ==> DigitAt(lo, 0) < hi[0]
    ensures Fits(lo, [DigitAt(lo, 0)] + y, hi) <==> Fits(From(lo, 1), y, "")
  {
    var whole := [DigitAt(lo, 0)] + y;
    assert whole[1..] == y;
    LessAfterShared(lo, [DigitAt(lo, 0)], y);
    assert AllDigits(whole) <==> AllDigits(y);
  }

  /** A fraction's last digit lies in the middle of those that would do in its place. */
  ghost predicate IsBalanced(lo: string, hi: string, m: string, low: int, high: int)
    requires m != "" && AllDigits(m)
  {
    var front, d := m[..|m| - 1], DigitValue(m[|m| - 1]);
    && (forall e :: 0 <= e < RADIX ==> (Fits(lo, front + [DigitChar(e)], hi) <==> low < e < high))
    && low + high - 2 <= 2 * d <= low + high
  }

  /** `midpoint` splits the room it finds: in place of its last digit as many others would fit below as
      above, give or take two. */
  lemma {:induction false} MidpointIsBalanced(lo: string, hi: string) returns (low: int, high: int)
    requires AllDigits(lo) && AllDigits(hi) && Precedes(lo, hi)
    ensures IsBalanced(lo, hi, Midpoint(lo, hi), low, high)
    decreases |hi|, |lo|
  {
    var n := Shared(lo, hi);
    var lead, limit := Lead(lo), Limit(hi);
    if n > 0 {
      SharedIsDropped(lo, hi);
      low, high := MidpointIsBalanced(From(lo, n), hi[n..]);
      BalancedAfterShared(lo, hi, n, Midpoint(From(lo, n), hi[n..]), low, high);
    } else if limit - lead > 1 || |hi| > 1 {
      low, high := lead, limit + (if |hi| > 1 then 1 else 0);
      BalancedAlone(lo, hi);
    } else {
      low, high := MidpointIsBalanced(From(lo, 1), "");
      if hi != "" {
        DigitAtOrder(lo, hi);
      }
      BalancedAfterLead(lo, hi, Midpoint(From(lo, 1), ""), low, high);
    }
  }

  lemma BalancedAfterShared(lo: string, hi: string, n: nat, m: string, low: int, high: int)
    requires AllDigits(lo) && AllDigits(hi) && n < |hi| && m != "" && AllDigits(m)
    requires forall k :: 0 <= k < n ==> DigitAt(lo, k) == hi[k]
    requires IsBalanced(From(lo, n), hi[n..], m, low, high)
    ensures AllDigits(hi[..n] + m) && IsBalanced(lo, hi, hi[..n] + m, low, high)
  {
    var whole, front := hi[..n] + m, m[..|m| - 1];
    assert whole[..|whole| - 1] == hi[..n] + front;
    forall e | 0 <= e < RADIX
      ensures Fits(lo, whole[..|whole| - 1] + [DigitChar(e)], hi) <==> low < e < high
    {
      FitsAfterShared(lo, hi, n, front + [DigitChar(e)]);
      assert whole[..|whole| - 1] + [DigitChar(e)] == hi[..n] + (front + [DigitChar(e)]);
    }
  }

  lemma BalancedAfterLead(lo: string, hi: string, m: string, low: int, high: int)
    requires AllDigits(lo) && AllDigits(hi) && |hi| <= 1 && m != "" && AllDigits(m)
    requires hi != "" ==> DigitAt(lo, 0) < hi[0]
    requires IsBalanced(From(lo, 1), "", m, low, high)
    ensures AllDigits([DigitAt(lo, 0)] + m) && IsBalanced(lo, hi, [DigitAt(lo, 0)] + m, low, high)
  {
    var lead, front := [DigitAt(lo, 0)], m[..|m| - 1];
    var whole := lead + m;
    assert whole[..|whole| - 1] == lead + front;
    forall e | 0 <= e < RADIX
      ensures Fits(lo, whole[..|whole| - 1] + [DigitChar(e)], hi) <==> low < e < high
    {
      FitsAfterLead(lo, hi, front + [DigitChar(e)]);
      assert whole[..|whole| - 1] + [DigitChar(e)] == lead + (front + [DigitChar(e)]);
    }
  }

  lemma BalancedAlone(lo: string, hi: string)
    requires AllDigits(lo) && AllDigits(hi) && Precedes(lo, hi) && Shared(lo, hi) == 0
    requires Limit(hi) - Lead(lo) > 1 || |hi| > 1
    ensures IsBalanced(lo, hi, Midpoint(lo, hi), Lead(lo), Limit(hi) + (if |hi| > 1 then 1 else 0))
  {
    var lead, limit := Lead(lo), Limit(hi);
    var m := Midpoint(lo, hi);
    if limit - lead > 1 {
      DigitRoundTrip((lead + limit) / 2);
    } else {
      DigitAtOrder(lo, hi);
      assert hi[..1] == [hi[0]];
    }
    assert |m| == 1 && m[..0] == "";
    forall e | 0 <= e < RADIX
      ensures Fits(lo, m[..0] + [DigitChar(e)], hi) <==> lead < e < limit + (if |hi| > 1 then 1 else 0)
    {
      AloneFits(lo, hi, e);
      assert m[..0] + [DigitChar(e)] == [DigitChar(e)];
    }
  }

  /** The comment on `check_rank` warns that a trailing zero keeps `midpoint` from
      terminating. It does terminate, but on such a bound it can land above the top. */
  lemma TrailingZeroOvershoots()
    ensures Less("", "0") && !Precedes("", "0")
    ensures Midpoint("", "0") == "0i" && Less("0", Midpoint("", "0"))
  {
    assert Shared("", "0") == 1;
    assert "0"[..1] == "0" && "0"[1..] == "";
    assert Midpoint("", "") == "i";
    LessPrefix("0", "", "i");
    assert "0" + "" == "0" && "0" + "i" == "0i";
  }
}
