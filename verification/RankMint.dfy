/** Minting a rank strictly between two others (`scripts/queue.py`, `check_rank`,
    `rank_between`, `rank_series`). */
module RankMint {
  import opened RankText
  import opened RankInteger
  import opened RankFraction

  // ---- Well-formed ranks ----

  /** `check_rank`: the error it raises, or the rank. */
  function CheckRank(rank: string): (r: Result<string>) {
    if rank == "" then Err(EmptyRank)
    else if rank == SMALLEST_INTEGER then Err(Reserved)
    else match IntegerPart(rank)
      case Err(e) => Err(e)
      case Ok(integer) =>
        var frac := rank[|integer|..];
        if !AllDigits(frac) then Err(BadFraction)
        else if frac != "" && frac[|frac| - 1] == DigitChar(0) then Err(TrailingZero)
        else Ok(rank)
  }

  /** A rank whose integer part holds digits only and that is not the reserved bottom. */
  predicate WellFormed(rank: string) {
    && rank != "" && rank != SMALLEST_INTEGER
    && IntegerPart(rank).Ok?
    && IsInteger(IntegerPart(rank).value)
    && IsFraction(FractionPart(rank))
  }

  /** What follows the integer part. */
  function FractionPart(rank: string): string
    requires rank != "" && IntegerPart(rank).Ok?
  {
    rank[|IntegerPart(rank).value|..]
  }

  /** `check_rank` reads the fraction only: it accepts exactly the well-formed ranks and
      those whose sole fault is a stray character in the integer part. */
  lemma CheckRankAccepts(rank: string)
    ensures WellFormed(rank) <==>
      CheckRank(rank).Ok? && AllDigits(IntegerPart(rank).value[1..])
  {
  }

  /** A stray character gets past the check, and a key is minted from it. */
  lemma StrayIntegerIsAccepted()
    ensures CheckRank("a!").Ok? && !WellFormed("a!")
    ensures RankBetween("a!", "") == Ok("a!i") && !WellFormed("a!i")
  {
    assert "a!"[..2] == "a!";
    assert IntegerPart("a!") == Ok("a!") && "a!"[1..] == "!" && "a!"[2..] == "";
    assert |SMALLEST_INTEGER| == 27;
    assert !IsDigit("!"[0]) && !IsDigit("a!"[1..][0]);
    assert Increment("a!").Err?;
    assert Midpoint("", "") == "i";
    assert "a!" + "i" == "a!i";
    assert IntegerPart("a!i").value == "a!";
  }

  // ---- Minting ----

  /** `rank_between`; an empty bound is open. */
  function RankBetween(lo: string, hi: string): (r: Result<string>) {
    if lo != "" && CheckRank(lo).Err? then Err(CheckRank(lo).error)
    else if hi != "" && CheckRank(hi).Err? then Err(CheckRank(hi).error)
    else if lo != "" && hi != "" && !Less(lo, hi) then Err(NotBelow)
    else if lo == "" then
      if hi == "" then Ok("a" + [DigitChar(0)]) else RankBelow(hi)
    else
      var il, fl := IntegerPart(lo).value, FractionPart(lo);
      if hi == "" then
        match Increment(il)
        case Ok(next) => Ok(next)
        case Err(_) => Ok(il + Midpoint(fl, ""))
      else
        var ih, fh := IntegerPart(hi).value, FractionPart(hi);
        if il == ih then Ok(il + Midpoint(fl, fh))
        else match Increment(il)
          case Err(e) => Err(e)
          case Ok(next) => if Less(next, hi) then Ok(next) else Ok(il + Midpoint(fl, ""))
  }

  /** The open-bottom case of `rank_between`. */
  function RankBelow(hi: string): (r: Result<string>)
    requires CheckRank(hi).Ok?
  {
    var ih := IntegerPart(hi).value;
    if ih == SMALLEST_INTEGER then Ok(ih + Midpoint("", FractionPart(hi)))
    else if Less(ih, hi) then Ok(ih)
    else match Decrement(ih)
      case Err(e) => Err(e)
      case Ok(below) => if below == SMALLEST_INTEGER then Ok(below + Midpoint("", "")) else Ok(below)
  }

  /** The same, stepping the integers and the fraction with the loops the source runs. */
  method MintBetween(lo: string, hi: string) returns (r: Result<string>)
    ensures r == RankBetween(lo, hi)
  {
    if lo != "" && CheckRank(lo).Err? {
      return Err(CheckRank(lo).error);
    }
    if hi != "" && CheckRank(hi).Err? {
      return Err(CheckRank(hi).error);
    }
    if lo != "" && hi != "" && !Less(lo, hi) {
      return Err(NotBelow);
    }
    if lo == "" {
      if hi == "" {
        return Ok("a" + [DigitChar(0)]);
      }
      var ih := IntegerPart(hi).value;
      if ih == SMALLEST_INTEGER {
        var m := ComputeMidpoint("", FractionPart(hi));
        return Ok(ih + m);
      }
      if Less(ih, hi) {
        return Ok(ih);
      }
      var below := DecrementInteger(ih);
      if below.Err? {
        return below;
      }
      if below.value == SMALLEST_INTEGER {
        var m := ComputeMidpoint("", "");
        return Ok(below.value + m);
      }
      return below;
    }
    var il, fl := IntegerPart(lo).value, FractionPart(lo);
    if hi == "" {
      var next := IncrementInteger(il);
      if next.Err? {
        var m := ComputeMidpoint(fl, "");
        return Ok(il + m);
      }
      return next;
    }
    var ih := IntegerPart(hi).value;
    if il == ih {
      var m := ComputeMidpoint(fl, FractionPart(hi));
      return Ok(il + m);
    }
    var next := IncrementInteger(il);
    if next.Err? {
      return next;
    }
    if Less(next.value, hi) {
      return next;
    }
    var m := ComputeMidpoint(fl, "");
    return Ok(il + m);
  }

  // ---- The minted rank lies strictly between ----

  lemma RankSplits(rank: string)
    requires WellFormed(rank)
    ensures rank == IntegerPart(rank).value + FractionPart(rank)
    ensures FractionPart(rank) == "" ==> rank == IntegerPart(rank).value
    ensures CheckRank(rank).Ok?
  {
  }

  /** An integer key followed by a fraction is well formed, unless it is the bottom alone. */
  lemma RankJoins(integer: string, frac: string)
    requires IsInteger(integer) && IsFraction(frac)
    requires integer == SMALLEST_INTEGER ==> frac != ""
    ensures WellFormed(integer + frac)
    ensures IntegerPart(integer + frac) == Ok(integer) && FractionPart(integer + frac) == frac
  {
    var rank := integer + frac;
    assert rank[..|integer|] == integer && rank[|integer|..] == frac;
  }

  /** Ranks compare by integer part first, then by fraction. */
  lemma RankOrder(il: string, fl: string, ih: string, fh: string)
    requires IsInteger(il) && IsInteger(ih)
    ensures il == ih ==> (Less(il + fl, ih + fh) <==> Less(fl, fh))
    ensures il != ih ==> (Less(il + fl, ih + fh) <==> Value(il) < Value(ih))
  {
    if il == ih {
      LessPrefix(il, fl, fh);
    } else {
      IntegerOrder(il, ih);
      DifferentIntegers(il, fl, ih, fh);
    }
  }

  /** Different integer keys decide a comparison whatever follows them. */
  lemma DifferentIntegers(il: string, fl: string, ih: string, fh: string)
    requires IsInteger(il) && IsInteger(ih) && il != ih
    ensures Less(il + fl, ih + fh) <==> Less(il, ih)
  {
    if il[0] == ih[0] {
      LessSameLength(il, ih, fl, fh);
    } else {
      assert (il + fl)[0] == il[0] && (ih + fh)[0] == ih[0];
    }
  }

  /** The main result: between any two well-formed ranks in order, either end open, minting
      succeeds with a well-formed, unreserved rank strictly between them. */
  lemma {:induction false} MintIsBetween(lo: string, hi: string)
    requires lo != "" ==> WellFormed(lo)
    requires hi != "" ==> WellFormed(hi)
    requires lo != "" && hi != "" ==> Less(lo, hi)
    ensures RankBetween(lo, hi).Ok?
    ensures var key := RankBetween(lo, hi).value;
            WellFormed(key) && (lo != "" ==> Less(lo, key)) && (hi != "" ==> Less(key, hi))
  {
    if lo != "" {
      RankSplits(lo);
    }
    if hi != "" {
      RankSplits(hi);
    }
    if lo == "" && hi == "" {
      assert "a" + [DigitChar(0)] == "a0" && "a0"[1..] == "0" && "a0"[2..] == "";
    } else if lo == "" {
      MintBelow(hi);
    } else if hi == "" {
      MintAbove(lo);
    } else {
      MintInside(lo, hi);
    }
  }

  lemma MintBelow(hi: string)
    requires WellFormed(hi)
    ensures RankBelow(hi).Ok? && WellFormed(RankBelow(hi).value) && Less(RankBelow(hi).value, hi)
  {
    RankSplits(hi);
    EndsAreIntegers();
    var ih, fh := IntegerPart(hi).value, FractionPart(hi);
    if ih == SMALLEST_INTEGER {
      PrecedesIsLess("", fh);
      MidpointIsBetween("", fh);
      RankJoins(ih, Midpoint("", fh));
      RankOrder(ih, Midpoint("", fh), ih, fh);
    } else if Less(ih, hi) {
      RankJoins(ih, "");
      assert ih + "" == ih;
    } else {
      if fh != "" {
        LessExtension(ih, fh);
      }
      var below := IntegerBelow(ih);
      var frac := if below == SMALLEST_INTEGER then Midpoint("", "") else "";
      MidpointIsBetween("", "");
      RankJoins(below, frac);
      RankOrder(below, frac, ih, fh);
      assert below + "" == below;
    }
  }

  lemma IntegerBelow(key: string) returns (below: string)
    requires IsInteger(key) && key != SMALLEST_INTEGER
    ensures Decrement(key) == Ok(below) && IsInteger(below) && Less(below, key)
  {
    EndsAreIntegers();
    IntegerOrder(key, SMALLEST_INTEGER);
    EndShapes(key);
    DecrementTakesOne(key);
    below := Decrement(key).value;
    IntegerOrder(below, key);
  }

  lemma MintAbove(lo: string)
    requires WellFormed(lo)
    ensures RankBetween(lo, "").Ok?
    ensures WellFormed(RankBetween(lo, "").value) && Less(lo, RankBetween(lo, "").value)
  {
    RankSplits(lo);
    var il, fl := IntegerPart(lo).value, FractionPart(lo);
    IncrementAddsOne(il);
    if Increment(il).Ok? {
      var next := Increment(il).value;
      NotTheBottom(il, next);
      RankJoins(next, "");
      RankOrder(il, fl, next, "");
      assert next + "" == next;
    } else {
      MintInGap(il, fl);
    }
  }

  /** A key above some integer key is not the bottom of the space. */
  lemma NotTheBottom(x: string, y: string)
    requires IsInteger(x) && IsInteger(y) && Value(x) < Value(y)
    ensures y != SMALLEST_INTEGER
  {
    EndsAreIntegers();
    EndShapes(x);
  }

  /** Room is always left above a fraction within its integer. */
  lemma MintInGap(il: string, fl: string)
    requires IsInteger(il) && IsFraction(fl)
    ensures WellFormed(il + Midpoint(fl, "")) && Less(il + fl, il + Midpoint(fl, ""))
    ensures IntegerPart(il + Midpoint(fl, "")) == Ok(il)
  {
    MidpointIsBetween(fl, "");
    RankJoins(il, Midpoint(fl, ""));
    LessPrefix(il, fl, Midpoint(fl, ""));
  }

  lemma MintInside(lo: string, hi: string)
    requires WellFormed(lo) && WellFormed(hi) && Less(lo, hi)
    ensures RankBetween(lo, hi).Ok?
    ensures var key := RankBetween(lo, hi).value; WellFormed(key) && Less(lo, key) && Less(key, hi)
  {
    RankSplits(lo);
    RankSplits(hi);
    var il, fl := IntegerPart(lo).value, FractionPart(lo);
    var ih, fh := IntegerPart(hi).value, FractionPart(hi);
    RankOrder(il, fl, ih, fh);
    if il == ih {
      NothingBelowEmpty(fl);
      PrecedesIsLess(fl, fh);
      MidpointIsBetween(fl, fh);
      RankJoins(il, Midpoint(fl, fh));
      LessPrefix(il, fl, Midpoint(fl, fh));
      LessPrefix(il, Midpoint(fl, fh), fh);
    } else {
      EndShapes(ih);
      IncrementAddsOne(il);
      var next := Increment(il).value;
      if Less(next, hi) {
        NotTheBottom(il, next);
        RankJoins(next, "");
        RankOrder(il, fl, next, "");
        assert next + "" == next;
      } else {
        MintInGap(il, fl);
        RankOrder(il, Midpoint(fl, ""), ih, fh);
      }
    }
  }

  // ---- The minted rank is the simplest one there is ----

  /** Strictly between two bounds, either of them open. */
  predicate Inside(lo: string, rank: string, hi: string) {
    (lo != "" ==> Less(lo, rank)) && (hi != "" ==> Less(rank, hi))
  }

  predicate BoundsFit(lo: string, hi: string) {
    (lo != "" ==> WellFormed(lo)) && (hi != "" ==> WellFormed(hi)) && (lo != "" && hi != "" ==> Less(lo, hi))
  }

  /** An integer key that could go between the bounds. */
  predicate IntegerFits(lo: string, key: string, hi: string) {
    IsInteger(key) && key != SMALLEST_INTEGER && Inside(lo, key, hi)
  }

  /** An integer key against a rank: it is above it just when its number is above the rank's integer
      part, and below it just when it is not. */
  lemma IntegerAgainst(key: string, rank: string)
    requires IsInteger(key) && WellFormed(rank)
    ensures Less(rank, key) <==> Value(IntegerPart(rank).value) < Value(key)
    ensures Less(key, rank) <==>
      || Value(key) < Value(IntegerPart(rank).value)
      || (key == IntegerPart(rank).value && FractionPart(rank) != "")
    ensures key == IntegerPart(rank).value <==> Value(key) == Value(IntegerPart(rank).value)
  {
    var integer, frac := IntegerPart(rank).value, FractionPart(rank);
    RankSplits(rank);
    assert key + "" == key;
    RankOrder(integer, frac, key, "");
    RankOrder(key, "", integer, frac);
    IntegerOrder(key, integer);
    NothingBelowEmpty(frac);
  }

  /** Where an integer key fits, minting costs no fraction: it gives the lowest that fits above a lower
      bound, and the highest that fits below an upper bound alone. */
  lemma {:induction false} MintPrefersIntegers(lo: string, hi: string, key: string)
    requires BoundsFit(lo, hi) && IntegerFits(lo, key, hi)
    ensures RankBetween(lo, hi).Ok? && IntegerFits(lo, RankBetween(lo, hi).value, hi)
    ensures lo != "" ==> Value(RankBetween(lo, hi).value) <= Value(key)
    ensures lo == "" && hi != "" ==> Value(key) <= Value(RankBetween(lo, hi).value)
    ensures lo == "" && hi == "" ==> Value(RankBetween(lo, hi).value) == 0
  {
    EndsAreIntegers();
    EndShapes(key);
    IntegerOrder(key, SMALLEST_INTEGER);
    MintIsBetween(lo, hi);
    if lo == "" && hi == "" {
      FirstKeyIsZero();
      assert "a" + [DigitChar(0)] == "a0";
    } else if lo == "" {
      HighestBelow(hi, key);
    } else {
      LowestAbove(lo, hi, key);
    }
  }

  lemma HighestBelow(hi: string, key: string)
    requires WellFormed(hi) && IntegerFits("", key, hi) && Value(key) > MIN_VALUE
    ensures RankBelow(hi).Ok? && IsInteger(RankBelow(hi).value) && Value(key) <= Value(RankBelow(hi).value)
    ensures RankBelow(hi).value != SMALLEST_INTEGER
  {
    var ih := IntegerPart(hi).value;
    RankSplits(hi);
    EndsAreIntegers();
    IntegerAgainst(key, hi);
    IntegerAgainst(ih, hi);
    DecrementTakesOne(ih);
    EndShapes(ih);
  }

  lemma LowestAbove(lo: string, hi: string, key: string)
    requires BoundsFit(lo, hi) && lo != "" && IntegerFits(lo, key, hi)
    ensures RankBetween(lo, hi).Ok? && IsInteger(RankBetween(lo, hi).value)
    ensures Value(RankBetween(lo, hi).value) <= Value(key)
    ensures RankBetween(lo, hi).value != SMALLEST_INTEGER
  {
    var il := IntegerPart(lo).value;
    RankSplits(lo);
    IntegerAgainst(key, lo);
    EndShapes(key);
    IncrementAddsOne(il);
    var next := Increment(il).value;
    NotTheBottom(il, next);
    if hi != "" {
      RankSplits(hi);
      IntegerAgainst(key, hi);
      IntegerAgainst(next, hi);
    }
  }

  /** A rank of the same integer part, and no longer. */
  ghost predicate IsAsShort(key: string, rank: string) {
    key != "" && rank != "" && IntegerPart(key) == IntegerPart(rank) && |key| <= |rank|
  }

  /** Where no integer key fits, every rank between the bounds shares its integer part with the minted
      one, which is as short as any of them. */
  lemma {:induction false} MintIsShortest(lo: string, hi: string, rank: string)
    requires BoundsFit(lo, hi) && WellFormed(rank) && Inside(lo, rank, hi)
    requires forall key :: !IntegerFits(lo, key, hi)
    ensures RankBetween(lo, hi).Ok? && IsAsShort(RankBetween(lo, hi).value, rank)
  {
    if lo == "" && hi == "" {
      FirstKeyIsZero();
      EndsAreIntegers();
      assert IntegerFits("", "a0", "");
    } else if lo == "" {
      ShortestBelow(hi, rank);
    } else {
      ShortestAbove(lo, hi, rank);
    }
  }

  lemma ShortestBelow(hi: string, rank: string)
    requires WellFormed(hi) && WellFormed(rank) && Less(rank, hi) && forall key :: !IntegerFits("", key, hi)
    ensures RankBelow(hi).Ok? && IsAsShort(RankBelow(hi).value, rank)
  {
    var ih, fh := IntegerPart(hi).value, FractionPart(hi);
    var frac := OverTheBottom(hi, rank);
    RankSplits(hi);
    IntegerAgainst(ih, hi);
    OnlyTheBottomIsLeft(hi, ih, fh);
    if ih == SMALLEST_INTEGER {
      LessPrefix(ih, frac, fh);
      NothingBelowEmpty(frac);
      PrecedesIsLess("", fh);
      LessNonEmpty(fh);
      ShortestOver(ih, "", frac, fh);
    } else {
      ShortestOver(SMALLEST_INTEGER, "", frac, "");
    }
  }

  /** All that is left is over the reserved bottom. */
  lemma OverTheBottom(hi: string, rank: string) returns (frac: string)
    requires WellFormed(hi) && WellFormed(rank) && Less(rank, hi) && forall key :: !IntegerFits("", key, hi)
    ensures IsInteger(SMALLEST_INTEGER) && IntegerPart(rank) == Ok(SMALLEST_INTEGER)
    ensures rank == SMALLEST_INTEGER + frac && IsFraction(frac) && Less("", frac)
  {
    var ih, fh, integer := IntegerPart(hi).value, FractionPart(hi), IntegerPart(rank).value;
    frac := FractionPart(rank);
    RankSplits(hi);
    RankSplits(rank);
    EndsAreIntegers();
    OnlyTheBottomIsLeft(hi, ih, fh);
    RankOrder(integer, frac, ih, fh);
    NothingBelowEmpty(frac);
    AtTheBottom(integer, ih);
    LessNonEmpty(frac);
  }

  lemma AtTheBottom(integer: string, ih: string)
    requires IsInteger(integer) && IsInteger(ih)
    requires ih == SMALLEST_INTEGER || Value(ih) == MIN_VALUE + 1
    requires integer == ih || Value(integer) < Value(ih)
    ensures IsInteger(SMALLEST_INTEGER)
    ensures integer == ih || integer == SMALLEST_INTEGER
  {
    EndsAreIntegers();
    EndShapes(integer);
    IntegerOrder(integer, SMALLEST_INTEGER);
  }

  /** Where no integer key fits below a rank, it is over the reserved bottom, or right above it. */
  lemma OnlyTheBottomIsLeft(hi: string, ih: string, fh: string)
    requires WellFormed(hi) && IntegerPart(hi) == Ok(ih) && FractionPart(hi) == fh
    requires forall key :: !IntegerFits("", key, hi)
    ensures ih == SMALLEST_INTEGER || (fh == "" && Decrement(ih) == Ok(SMALLEST_INTEGER) && Value(ih) == MIN_VALUE + 1)
  {
    RankSplits(hi);
    EndsAreIntegers();
    IntegerAgainst(ih, hi);
    if ih != SMALLEST_INTEGER {
      assert !IntegerFits("", ih, hi);
      var below := IntegerBelow(ih);
      IntegerAgainst(below, hi);
      DecrementTakesOne(ih);
      assert !IntegerFits("", below, hi);
    }
  }

  /** The midpoint over an integer part is as short as whatever else fits there. */
  lemma ShortestOver(integer: string, lo: string, frac: string, hi: string)
    requires IsInteger(integer) && IsFraction(lo) && IsFraction(hi) && IsFraction(frac)
    requires Between(lo, frac, hi) && Precedes(lo, hi)
    ensures |integer + Midpoint(lo, hi)| <= |integer + frac|
    ensures IntegerPart(integer + Midpoint(lo, hi)) == Ok(integer)
  {
    MidpointIsShortest(lo, hi, frac);
    MidpointIsBetween(lo, hi);
    RankJoins(integer, Midpoint(lo, hi));
  }

  lemma ShortestAbove(lo: string, hi: string, rank: string)
    requires BoundsFit(lo, hi) && lo != "" && WellFormed(rank) && Inside(lo, rank, hi)
    requires forall key :: !IntegerFits(lo, key, hi)
    ensures RankBetween(lo, hi).Ok? && IsAsShort(RankBetween(lo, hi).value, rank)
  {
    var integer, frac := IntegerPart(rank).value, FractionPart(rank);
    var il, fl := IntegerPart(lo).value, FractionPart(lo);
    RankSplits(lo);
    RankSplits(rank);
    NoIntegerAbove(lo, hi, rank);
    LessPrefix(il, fl, frac);
    if hi != "" && IntegerPart(hi).value == il {
      ShortestWithin(il, fl, frac, hi);
    } else {
      ShortestOver(il, fl, frac, "");
    }
  }

  lemma ShortestWithin(il: string, fl: string, frac: string, hi: string)
    requires IsInteger(il) && IsFraction(fl) && IsFraction(frac) && WellFormed(hi) && IntegerPart(hi) == Ok(il)
    requires Less(il + fl, hi) && Less(fl, frac) && Less(il + frac, hi)
    ensures |il + Midpoint(fl, FractionPart(hi))| <= |il + frac|
    ensures IntegerPart(il + Midpoint(fl, FractionPart(hi))) == Ok(il)
  {
    var fh := FractionPart(hi);
    RankSplits(hi);
    LessPrefix(il, frac, fh);
    NothingBelowEmpty(frac);
    LessPrefix(il, fl, fh);
    PrecedesIsLess(fl, fh);
    ShortestOver(il, fl, frac, fh);
  }

  /** Where no integer key fits above a rank, whatever does shares its integer part; and the step to the
      next integer, where there is one, reaches the upper bound. */
  lemma NoIntegerAbove(lo: string, hi: string, rank: string)
    requires BoundsFit(lo, hi) && lo != "" && WellFormed(rank) && Inside(lo, rank, hi)
    requires forall key :: !IntegerFits(lo, key, hi)
    ensures IntegerPart(rank) == IntegerPart(lo)
    ensures hi == "" ==> Increment(IntegerPart(lo).value).Err?
    ensures hi != "" && IntegerPart(hi) != IntegerPart(lo) ==>
      Increment(IntegerPart(lo).value).Ok? && !Less(Increment(IntegerPart(lo).value).value, hi)
  {
    var il, integer := IntegerPart(lo).value, IntegerPart(rank).value;
    RankSplits(lo);
    RankSplits(rank);
    IncrementAddsOne(il);
    EndShapes(integer);
    RankOrder(il, FractionPart(lo), integer, FractionPart(rank));
    IntegerOrder(il, integer);
    if Increment(il).Ok? {
      var next := Increment(il).value;
      NotTheBottom(il, next);
      IntegerAgainst(next, lo);
      assert !IntegerFits(lo, next, hi);
      if hi != "" {
        AtTheNextInteger(rank, next, hi);
      }
    }
    if hi != "" {
      var ih := IntegerPart(hi).value;
      RankSplits(hi);
      RankOrder(il, FractionPart(lo), ih, FractionPart(hi));
      IntegerOrder(il, ih);
      EndShapes(ih);
    }
  }

  /** A rank below one that no integer from `next` on is below has a lower integer part. */
  lemma AtTheNextInteger(rank: string, next: string, hi: string)
    requires WellFormed(rank) && WellFormed(hi) && IsInteger(next) && Less(rank, hi) && !Less(next, hi)
    ensures Value(IntegerPart(rank).value) < Value(next)
  {
    IntegerAgainst(next, hi);
    RankSplits(rank);
    RankSplits(hi);
    RankOrder(IntegerPart(rank).value, FractionPart(rank), IntegerPart(hi).value, FractionPart(hi));
    NothingBelowEmpty(FractionPart(rank));
  }

  // ---- Bounds that are accepted but not well formed ----

  /** What `rank_between` lets through as a bound: an open end, or a rank that passes the check. */
  predicate IsBound(rank: string) {
    rank == "" || CheckRank(rank).Ok?
  }

  /** A mint that does its job. */
  ghost predicate MintsBetween(lo: string, hi: string) {
    var r := RankBetween(lo, hi);
    r.Ok? && WellFormed(r.value) && (lo != "" ==> Less(lo, r.value)) && (hi != "" ==> Less(r.value, hi))
  }

  lemma {:induction false} IncrementKeepsStray(digits: string)
    requires !AllDigits(digits) && IncrementDigits(digits).Stepped?
    ensures var stepped := IncrementDigits(digits);
      !stepped.carry && |stepped.digits| == |digits| && !AllDigits(stepped.digits)
  {
    var n := |digits| - 1;
    var i :| 0 <= i < |digits| && !IsDigit(digits[i]);
    if IncrementDigits(digits[..n]).Stepped? && DigitValue(digits[n]) + 1 == RADIX {
      assert digits[..n][i] == digits[i];
      IncrementKeepsStray(digits[..n]);
      var front := IncrementDigits(digits[..n]).digits;
      var j :| 0 <= j < |front| && !IsDigit(front[j]);
      assert IncrementDigits(digits).digits[j] == front[j];
    } else {
      assert IncrementDigits(digits).digits[i] == digits[i];
    }
  }

  lemma {:induction false} DecrementKeepsStray(digits: string)
    requires !AllDigits(digits) && DecrementDigits(digits).Stepped?
    ensures var stepped := DecrementDigits(digits);
      !stepped.carry && |stepped.digits| == |digits| && !AllDigits(stepped.digits)
  {
    var n := |digits| - 1;
    var i :| 0 <= i < |digits| && !IsDigit(digits[i]);
    if DecrementDigits(digits[..n]).Stepped? && DigitValue(digits[n]) == 0 {
      assert digits[..n][i] == digits[i];
      DecrementKeepsStray(digits[..n]);
      var front := DecrementDigits(digits[..n]).digits;
      var j :| 0 <= j < |front| && !IsDigit(front[j]);
      assert DecrementDigits(digits).digits[j] == front[j];
    } else {
      assert DecrementDigits(digits).digits[i] == digits[i];
    }
  }

  /** Text that begins with an integer part that holds a stray character is no well-formed rank. */
  lemma StrayIsNotWellFormed(integer: string, rest: string)
    requires integer != "" && IntegerPart(integer) == Ok(integer) && !AllDigits(integer[1..])
    ensures !WellFormed(integer + rest)
  {
    assert (integer + rest)[..|integer|] == integer;
  }

  /** A stray character survives whichever step is taken from it. */
  lemma StraySteps(x: string)
    requires x != "" && IsHead(x[0]) && IntegerPart(x) == Ok(x) && !AllDigits(x[1..])
    ensures Increment(x).Ok? ==> !WellFormed(Increment(x).value)
    ensures Decrement(x).Ok? ==> !WellFormed(Decrement(x).value) && Decrement(x).value != SMALLEST_INTEGER
  {
    if IncrementDigits(x[1..]).Stepped? {
      IncrementKeepsStray(x[1..]);
      StraySameHead(x, IncrementDigits(x[1..]).digits);
    }
    if DecrementDigits(x[1..]).Stepped? {
      DecrementKeepsStray(x[1..]);
      StraySameHead(x, DecrementDigits(x[1..]).digits);
    }
  }

  lemma StraySameHead(x: string, digits: string)
    requires x != "" && IsHead(x[0]) && IntegerPart(x) == Ok(x) && |digits| == |x| - 1 && !AllDigits(digits)
    ensures !WellFormed([x[0]] + digits) && [x[0]] + digits != SMALLEST_INTEGER
  {
    var y := [x[0]] + digits;
    assert y[1..] == digits && y[..|y|] == y;
    StrayIsNotWellFormed(y, "");
    assert y + "" == y;
    EndsAreIntegers();
  }

  /** A rank that passes the check without being well formed. */
  lemma AcceptedStray(rank: string) returns (integer: string)
    requires CheckRank(rank).Ok? && !WellFormed(rank)
    ensures IntegerPart(rank) == Ok(integer) == IntegerPart(integer) && integer != "" && IsHead(integer[0])
    ensures !AllDigits(integer[1..]) && integer != SMALLEST_INTEGER
    ensures rank == integer + FractionPart(rank)
  {
    CheckRankAccepts(rank);
    integer := IntegerPart(rank).value;
    assert integer[..|integer|] == integer;
    EndsAreIntegers();
  }

  lemma StrayBoundBelow(hi: string)
    requires CheckRank(hi).Ok? && !WellFormed(hi)
    ensures !MintsBetween("", hi)
  {
    var ih := AcceptedStray(hi);
    StrayIsNotWellFormed(ih, "");
    assert ih + "" == ih;
    StraySteps(ih);
  }

  lemma StrayBoundAbove(lo: string, hi: string)
    requires CheckRank(lo).Ok? && !WellFormed(lo) && IsBound(hi)
    ensures !MintsBetween(lo, hi)
  {
    var il := AcceptedStray(lo);
    StraySteps(il);
    StrayIsNotWellFormed(il, Midpoint(FractionPart(lo), ""));
    if hi != "" {
      StrayIsNotWellFormed(il, Midpoint(FractionPart(lo), FractionPart(hi)));
    }
  }

  lemma OnlyTheTopStops(il: string)
    requires IsInteger(il)
    ensures Increment(il).Ok? <==> il != LARGEST_INTEGER
  {
    EndsAreIntegers();
    IncrementAddsOne(il);
    IncrementAddsOne(LARGEST_INTEGER);
    EndShapes(il);
    IntegerOrder(il, LARGEST_INTEGER);
    IntegerOrder(LARGEST_INTEGER, il);
    LessTotal(il, LARGEST_INTEGER);
  }

  /** Texts whose integer parts differ are in the order of those, digits or not. */
  lemma DifferentParts(lo: string, hi: string, frac: string)
    requires lo != "" && hi != "" && IntegerPart(lo).Ok? && IntegerPart(hi).Ok?
    requires IntegerPart(lo) != IntegerPart(hi) && Less(lo, hi)
    ensures Less(IntegerPart(lo).value + frac, hi)
  {
    var il, ih := IntegerPart(lo).value, IntegerPart(hi).value;
    if lo[0] == hi[0] {
      LessSameLength(il, ih, lo[|il|..], hi[|ih|..]);
      LessSameLength(il, ih, frac, hi[|ih|..]);
      assert lo == il + lo[|il|..] && hi == ih + hi[|ih|..];
    } else {
      assert (il + frac)[0] == lo[0];
    }
  }

  /** A well-formed lower bound below the top mints well whatever the upper bound holds. */
  lemma {:induction false} MintBelowStray(lo: string, hi: string)
    requires WellFormed(lo) && CheckRank(hi).Ok? && Less(lo, hi)
    requires IntegerPart(lo) != IntegerPart(hi)
    ensures MintsBetween(lo, hi) <==> IntegerPart(lo).value != LARGEST_INTEGER
  {
    var il, fl := IntegerPart(lo).value, FractionPart(lo);
    OnlyTheTopStops(il);
    RankSplits(lo);
    if Increment(il).Ok? {
      MintAbove(lo);
      assert RankBetween(lo, "") == Increment(il);
      MintInGap(il, fl);
      DifferentParts(lo, hi, Midpoint(fl, ""));
    }
  }

  /** Of the bounds that pass the check, in order, minting gives a well-formed rank strictly between them
      exactly when neither end it works from holds a stray character: the upper one where the bottom is
      open, and otherwise the lower one, unless that is at the top of the integers and the upper bound
      is not. */
  lemma {:induction false} MintFromAccepted(lo: string, hi: string)
    requires IsBound(lo) && IsBound(hi) && (lo != "" && hi != "" ==> Less(lo, hi))
    ensures MintsBetween(lo, hi) <==>
      if lo == "" then hi == "" || WellFormed(hi)
      else
        && WellFormed(lo)
        && (hi == "" || IntegerPart(lo) == IntegerPart(hi) || IntegerPart(lo).value != LARGEST_INTEGER)
  {
    if lo == "" {
      if hi == "" || WellFormed(hi) {
        MintIsBetween(lo, hi);
      } else {
        StrayBoundBelow(hi);
      }
    } else if !WellFormed(lo) {
      StrayBoundAbove(lo, hi);
    } else if hi == "" {
      MintIsBetween(lo, hi);
    } else if IntegerPart(lo) == IntegerPart(hi) {
      CheckRankAccepts(hi);
      MintIsBetween(lo, hi);
    } else {
      MintBelowStray(lo, hi);
    }
  }

  // ---- Bulk import ----

  /** `rank_series`: successive keys from "a0" up. The step past the last key is taken even
      though nothing uses it, so a series that ends on the top key fails. */
  method RankSeries(count: nat) returns (r: Result<seq<string>>)
    ensures r.Ok? <==> count <= MAX_VALUE
    ensures r.Ok? ==> |r.value| == count && forall v :: 0 <= v < count ==> Denotes(r.value[v], v)
    ensures r.Err? ==> r.error == TopOfSpace
  {
    FirstKeyIsZero();
    var out: seq<string> := [];
    var cur := "a" + [DigitChar(0)];
    for i := 0 to count
      invariant i <= MAX_VALUE && |out| == i
      invariant forall v :: 0 <= v < i ==> Denotes(out[v], v)
      invariant Denotes(cur, i)
    {
      SeriesStep(cur, i);
      out := out + [cur];
      var next := IncrementInteger(IntegerPart(cur).value);
      if next.Err? {
        return Err(next.error);
      }
      cur := next.value;
    }
    return Ok(out);
  }

  /** A key is the integer key for a number. */
  ghost predicate Denotes(key: string, v: int) {
    IsInteger(key) && Value(key) == v
  }

  lemma IntegerOfItself(key: string)
    requires IsInteger(key)
    ensures key != "" && IntegerPart(key) == Ok(key)
  {
    assert key[..|key|] == key;
  }

  lemma SeriesStep(cur: string, v: int)
    requires Denotes(cur, v)
    ensures v <= MAX_VALUE && cur != "" && IntegerPart(cur) == Ok(cur)
    ensures if v < MAX_VALUE then Increment(cur).Ok? && Denotes(Increment(cur).value, v + 1)
            else Increment(cur) == Err(TopOfSpace)
  {
    EndShapes(cur);
    IncrementAddsOne(cur);
    IntegerOfItself(cur);
  }

  lemma FirstKeyIsZero()
    ensures IsInteger("a0") && Value("a0") == 0
    ensures MIN_VALUE < 0 < MAX_VALUE
  {
    FirstAboveZ();
    EndsAreIntegers();
    LowerMagnitude(SMALLEST_INTEGER, "a0");
    LowerMagnitude("a0", LARGEST_INTEGER);
  }
}
