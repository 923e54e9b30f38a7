/** The integer part of a rank key: a magnitude head that fixes how many base-36
    digits follow it, stepped up and down by one (`scripts/queue.py`). */
module RankInteger {
  import opened RankText

  // ---- Heads and lengths ----

  predicate IsHead(c: char) {
    'A' <= c <= 'Z' || 'a' <= c <= 'z'
  }

  /** How many characters the integer part takes, its head included. */
  function IntegerLength(head: char): (r: Result<nat>) {
    if 'a' <= head <= 'z' then Ok(head as int - 'a' as int + 2)
    else if 'A' <= head <= 'Z' then Ok('Z' as int - head as int + 2)
    else Err(BadHead)
  }

  function IntegerPart(rank: string): (r: Result<string>)
    requires rank != ""
  {
    match IntegerLength(rank[0])
    case Err(e) => Err(e)
    case Ok(n) => if n > |rank| then Err(TooShort) else Ok(rank[..n])
  }

  /** A head followed by exactly the digits it calls for. */
  predicate IsInteger(x: string) {
    x != "" && IsHead(x[0]) && |x| == IntegerLength(x[0]).value && AllDigits(x[1..])
  }

  function Repeat(c: char, n: nat): (s: string)
    ensures |s| == n && forall i :: 0 <= i < n ==> s[i] == c
  {
    seq(n, _ => c)
  }

  /** The reserved bottom of the space. */
  const SMALLEST_INTEGER: string := ['A'] + Repeat('0', 26)

  // ---- Stepping by one, as a specification ----

  datatype Carry = Stepped(digits: string, carry: bool) | Foreign

  /** Digits after adding one at the right end, and whether one is carried out. */
  function IncrementDigits(digits: string): (r: Carry) {
    if digits == "" then Stepped("", true)
    else
      var front, last := digits[..|digits| - 1], digits[|digits| - 1];
      if !IsDigit(last) then Foreign
      else if DigitValue(last) + 1 < RADIX then Stepped(front + [DigitChar(DigitValue(last) + 1)], false)
      else match IncrementDigits(front)
        case Foreign => Foreign
        case Stepped(s, carry) => Stepped(s + [DigitChar(0)], carry)
  }

  /** Digits after taking one at the right end, and whether one is borrowed. */
  function DecrementDigits(digits: string): (r: Carry) {
    if digits == "" then Stepped("", true)
    else
      var front, last := digits[..|digits| - 1], digits[|digits| - 1];
      if !IsDigit(last) then Foreign
      else if DigitValue(last) > 0 then Stepped(front + [DigitChar(DigitValue(last) - 1)], false)
      else match DecrementDigits(front)
        case Foreign => Foreign
        case Stepped(s, borrow) => Stepped(s + [DigitChar(RADIX - 1)], borrow)
  }

  function DropLast(s: string): string {
    if s == "" then "" else s[..|s| - 1]
  }

  function Increment(x: string): (r: Result<string>)
    requires x != "" && IsHead(x[0])
  {
    match IncrementDigits(x[1..])
    case Foreign => Err(BadDigit)
    case Stepped(s, carry) =>
      if !carry then Ok([x[0]] + s)
      else if x[0] == 'z' then Err(TopOfSpace)
      else Ok(NextMagnitude(x[0], s))
  }

  /** The key a carry moves to: the next head, with a digit more or a digit less. */
  function NextMagnitude(head: char, digits: string): string
    requires IsHead(head) && head != 'z'
  {
    if head == 'Z' then ['a', DigitChar(0)]
    else
      var next := (head as int + 1) as char;
      if next > 'a' then [next] + (digits + [DigitChar(0)]) else [next] + DropLast(digits)
  }

  function Decrement(x: string): (r: Result<string>)
    requires x != "" && IsHead(x[0])
  {
    match DecrementDigits(x[1..])
    case Foreign => Err(BadDigit)
    case Stepped(s, borrow) =>
      if !borrow then Ok([x[0]] + s)
      else if x[0] == 'A' then Err(BottomOfSpace)
      else Ok(PreviousMagnitude(x[0], s))
  }

  /** The key a borrow moves to: the previous head, with a digit more or a digit less. */
  function PreviousMagnitude(head: char, digits: string): string
    requires IsHead(head) && head != 'A'
  {
    if head == 'a' then ['Z', DigitChar(RADIX - 1)]
    else
      var previous := (head as int - 1) as char;
      if previous < 'Z' then [previous] + (digits + [DigitChar(RADIX - 1)]) else [previous] + DropLast(digits)
  }

  // ---- Stepping by one, in place ----

  /** What one turn of the carry loop does to the digit before the rewritten tail. */
  lemma CarryTurn(digits: string, i: nat, tail: string)
    requires i < |digits|
    ensures var c := digits[i];
      Extended(IncrementDigits(digits[..i + 1]), tail) ==
        if !IsDigit(c) then Foreign
        else if DigitValue(c) + 1 < RADIX then Stepped(digits[..i] + [DigitChar(DigitValue(c) + 1)] + tail, false)
        else Extended(IncrementDigits(digits[..i]), [DigitChar(0)] + tail)
  {
    assert digits[..i + 1][..i] == digits[..i];
    if IncrementDigits(digits[..i]).Stepped? {
      var s := IncrementDigits(digits[..i]).digits;
      assert (s + [DigitChar(0)]) + tail == s + ([DigitChar(0)] + tail);
    }
  }

  /** What one turn of the borrow loop does to the digit before the rewritten tail. */
  lemma BorrowTurn(digits: string, i: nat, tail: string)
    requires i < |digits|
    ensures var c := digits[i];
      Extended(DecrementDigits(digits[..i + 1]), tail) ==
        if !IsDigit(c) then Foreign
        else if DigitValue(c) > 0 then Stepped(digits[..i] + [DigitChar(DigitValue(c) - 1)] + tail, false)
        else Extended(DecrementDigits(digits[..i]), [DigitChar(RADIX - 1)] + tail)
  {
    assert digits[..i + 1][..i] == digits[..i];
    if DecrementDigits(digits[..i]).Stepped? {
      var s := DecrementDigits(digits[..i]).digits;
      assert (s + [DigitChar(RADIX - 1)]) + tail == s + ([DigitChar(RADIX - 1)] + tail);
    }
  }

  /** `increment_integer`: the digits are rewritten from the right while a carry lasts. */
  method IncrementInteger(x: string) returns (r: Result<string>)
    requires x != "" && IsHead(x[0])
    ensures r == Increment(x)
  {
    var head, digs := x[0], x[1..];
    var carry, i := true, |digs|;
    ghost var tail := "";
    assert x[1..][..i] == x[1..];
    while i > 0 && carry
      invariant 0 <= i <= |digs| == |x| - 1
      invariant carry ==> digs == x[1..][..i] + tail
      invariant carry ==> IncrementDigits(x[1..]) == Extended(IncrementDigits(x[1..][..i]), tail)
      invariant !carry ==> IncrementDigits(x[1..]) == Stepped(digs, false)
    {
      i := i - 1;
      CarryTurn(x[1..], i, tail);
      if !IsDigit(digs[i]) {
        return Err(BadDigit);
      }
      var d := DigitValue(digs[i]) + 1;
      if d == RADIX {
        digs := digs[i := DigitChar(0)];
        tail := [DigitChar(0)] + tail;
      } else {
        digs := digs[i := DigitChar(d)];
        assert digs == x[1..][..i] + [DigitChar(d)] + tail;
        carry := false;
      }
    }
    if !carry {
      return Ok([head] + digs);
    }
    assert x[1..][..0] == "" && digs == tail;
    if head == 'Z' {
      return Ok(['a', DigitChar(0)]);
    }
    if head == 'z' {
      return Err(TopOfSpace);
    }
    var next := (head as int + 1) as char;
    if next > 'a' {
      digs := digs + [DigitChar(0)];
    } else {
      digs := DropLast(digs);
    }
    return Ok([next] + digs);
  }

  /** `decrement_integer`: the digits are rewritten from the right while a borrow lasts. */
  method DecrementInteger(x: string) returns (r: Result<string>)
    requires x != "" && IsHead(x[0])
    ensures r == Decrement(x)
  {
    var head, digs := x[0], x[1..];
    var borrow, i := true, |digs|;
    ghost var tail := "";
    assert x[1..][..i] == x[1..];
    while i > 0 && borrow
      invariant 0 <= i <= |digs| == |x| - 1
      invariant borrow ==> digs == x[1..][..i] + tail
      invariant borrow ==> DecrementDigits(x[1..]) == Extended(DecrementDigits(x[1..][..i]), tail)
      invariant !borrow ==> DecrementDigits(x[1..]) == Stepped(digs, false)
    {
      i := i - 1;
      BorrowTurn(x[1..], i, tail);
      if !IsDigit(digs[i]) {
        return Err(BadDigit);
      }
      var d := DigitValue(digs[i]) - 1;
      if d == -1 {
        digs := digs[i := DigitChar(RADIX - 1)];
        tail := [DigitChar(RADIX - 1)] + tail;
      } else {
        digs := digs[i := DigitChar(d)];
        assert digs == x[1..][..i] + [DigitChar(d)] + tail;
        borrow := false;
      }
    }
    if !borrow {
      return Ok([head] + digs);
    }
    assert x[1..][..0] == "" && digs == tail;
    if head == 'a' {
      return Ok(['Z', DigitChar(RADIX - 1)]);
    }
    if head == 'A' {
      return Err(BottomOfSpace);
    }
    var previous := (head as int - 1) as char;
    if previous < 'Z' {
      digs := digs + [DigitChar(RADIX - 1)];
    } else {
      digs := DropLast(digs);
    }
    return Ok([previous] + digs);
  }

  /** A step on the front of the digits, with the rewritten tail put back. */
  ghost function Extended(c: Carry, tail: string): Carry {
    match c
    case Foreign => Foreign
    case Stepped(s, carry) => Stepped(s + tail, carry)
  }

  // ---- The number an integer part denotes ----

  function Power(n: nat): (p: nat)
    ensures p > 0
  {
    if n == 0 then 1 else 36 * Power(n - 1)
  }

  /** How many integer keys the first `n` ascending magnitudes hold. */
  function Below(n: nat): nat {
    if n == 0 then 0 else Below(n - 1) + Power(n)
  }

  /** The digits read as a base-36 number. */
  function Number(digits: string): (v: nat)
    requires AllDigits(digits)
    ensures v < Power(|digits|)
  {
    if digits == "" then 0
    else 36 * Number(digits[..|digits| - 1]) + DigitValue(digits[|digits| - 1])
  }

  /** Heads numbered in character order: 'A'..'Z' are 0..25 and 'a'..'z' are 26..51. */
  function HeadIndex(head: char): (i: nat)
    requires IsHead(head)
    ensures i < 52
  {
    if head <= 'Z' then head as int - 'A' as int else head as int - 'a' as int + 26
  }

  function Digits(i: nat): nat
    requires i < 52
  {
    if i < 26 then 26 - i else i - 25
  }

  /** The number that starts a magnitude; "a0" is zero. */
  function Start(i: nat): int {
    if i < 26 then -(Below(26 - i) as int) else Below(i - 26)
  }

  function Value(x: string): int
    requires IsInteger(x)
  {
    Start(HeadIndex(x[0])) + Number(x[1..])
  }

  const LARGEST_INTEGER: string := ['z'] + Repeat('z', 26)

  lemma {:induction false} RepeatIsNumber(c: char, n: nat)
    requires c == '0' || c == 'z'
    ensures AllDigits(Repeat(c, n))
    ensures Number(Repeat(c, n)) == if c == '0' then 0 else Power(n) - 1
  {
    if n > 0 {
      RepeatIsNumber(c, n - 1);
      assert Repeat(c, n)[..n - 1] == Repeat(c, n - 1);
    }
  }

  /** The ends of the space. */
  lemma EndsAreIntegers()
    ensures IsInteger(SMALLEST_INTEGER) && IsInteger(LARGEST_INTEGER)
  {
    assert SMALLEST_INTEGER[1..] == Repeat('0', 26);
    assert LARGEST_INTEGER[1..] == Repeat('z', 26);
  }

  ghost const MIN_VALUE: int := (EndsAreIntegers(); Value(SMALLEST_INTEGER))
  ghost const MAX_VALUE: int := (EndsAreIntegers(); Value(LARGEST_INTEGER))

  lemma EndValues()
    ensures MIN_VALUE == Start(0) && MAX_VALUE == Start(52) - 1
  {
    EndsAreIntegers();
    LowEnd();
    HighEnd();
  }

  lemma LowEnd()
    requires IsInteger(SMALLEST_INTEGER)
    ensures Value(SMALLEST_INTEGER) == Start(0)
  {
    RepeatIsNumber('0', 26);
    assert SMALLEST_INTEGER[1..] == Repeat('0', 26);
  }

  lemma HighEnd()
    requires IsInteger(LARGEST_INTEGER)
    ensures Value(LARGEST_INTEGER) == Start(52) - 1
  {
    RepeatIsNumber('z', 26);
    assert LARGEST_INTEGER[1..] == Repeat('z', 26);
    StartStep(51);
  }

  lemma StartStep(i: nat)
    requires i < 52
    ensures Start(i + 1) == Start(i) + Power(Digits(i))
  {
    if i == 25 {
      assert Below(1) == Below(0) + Power(1);
    }
  }

  lemma {:induction false} StartMonotone(i: nat, j: nat)
    requires i <= j <= 52
    ensures Start(i) <= Start(j)
    ensures i < j ==> Start(i) + Power(Digits(i)) <= Start(j)
    decreases j - i
  {
    if i < j {
      StartStep(i);
      StartMonotone(i + 1, j);
    }
  }

  /** A key's number lies within its magnitude. */
  lemma IntegerShape(x: string)
    requires IsInteger(x)
    ensures |x[1..]| == Digits(HeadIndex(x[0]))
    ensures Start(HeadIndex(x[0])) <= Value(x) < Start(HeadIndex(x[0]) + 1)
  {
    StartStep(HeadIndex(x[0]));
  }

  // ---- String order is numeric order ----

  lemma {:induction false} NumberOrder(s: string, t: string)
    requires AllDigits(s) && AllDigits(t) && |s| == |t|
    ensures Less(s, t) <==> Number(s) < Number(t)
    ensures Less(t, s) <==> Number(t) < Number(s)
  {
    if s != "" {
      var s', c := s[..|s| - 1], s[|s| - 1];
      var t', d := t[..|t| - 1], t[|t| - 1];
      assert s == s' + [c] && t == t' + [d];
      NumberOrder(s', t');
      LessTotal(s', t');
      LessLast(s', c, t', d);
      LessLast(t', d, s', c);
      DigitOrder(c, d);
      DigitOrder(d, c);
    }
  }

  /** Two integer keys compare as strings exactly as their numbers do. */
  lemma IntegerOrder(x: string, y: string)
    requires IsInteger(x) && IsInteger(y)
    ensures Less(x, y) <==> Value(x) < Value(y)
    ensures x == y <==> Value(x) == Value(y)
  {
    if x[0] == y[0] {
      SameMagnitude(x, y);
    } else if x[0] < y[0] {
      LowerMagnitude(x, y);
    } else {
      LowerMagnitude(y, x);
    }
  }

  lemma SameMagnitude(x: string, y: string)
    requires IsInteger(x) && IsInteger(y) && x[0] == y[0]
    ensures Less(x, y) <==> Value(x) < Value(y)
    ensures x == y <==> Value(x) == Value(y)
  {
    NumberOrder(x[1..], y[1..]);
    LessTotal(x[1..], y[1..]);
    LessIrreflexive(x[1..]);
    assert x == [x[0]] + x[1..] && y == [x[0]] + y[1..];
  }

  lemma LowerMagnitude(x: string, y: string)
    requires IsInteger(x) && IsInteger(y) && x[0] < y[0]
    ensures Less(x, y) && !Less(y, x) && Value(x) < Value(y)
  {
    LowerHead(x, y);
    IntegerShape(x);
    IntegerShape(y);
    StartMonotone(HeadIndex(x[0]) + 1, HeadIndex(y[0]));
  }

  lemma LowerHead(x: string, y: string)
    requires x != "" && y != "" && x[0] < y[0]
    ensures Less(x, y) && !Less(y, x)
  {
  }

  // ---- One step is plus or minus one ----

  lemma {:induction false} IncrementDigitsNumber(digits: string)
    requires AllDigits(digits)
    ensures var r := IncrementDigits(digits);
            && r.Stepped? && |r.digits| == |digits| && AllDigits(r.digits)
            && Number(r.digits) + (if r.carry then Power(|digits|) else 0) == Number(digits) + 1
            && (r.carry <==> Number(digits) + 1 == Power(|digits|))
  {
    if digits != "" {
      var front, last := digits[..|digits| - 1], digits[|digits| - 1];
      IncrementDigitsNumber(front);
      var s := IncrementDigits(digits).digits;
      if DigitValue(last) + 1 < RADIX {
        DigitRoundTrip(DigitValue(last) + 1);
        assert s[..|s| - 1] == front;
      } else {
        DigitRoundTrip(0);
        assert s[..|s| - 1] == IncrementDigits(front).digits;
      }
    }
  }

  lemma {:induction false} DecrementDigitsNumber(digits: string)
    requires AllDigits(digits)
    ensures var r := DecrementDigits(digits);
            && r.Stepped? && |r.digits| == |digits| && AllDigits(r.digits)
            && Number(r.digits) + 1 == Number(digits) + (if r.carry then Power(|digits|) else 0)
            && (r.carry <==> Number(digits) == 0)
  {
    if digits != "" {
      var front, last := digits[..|digits| - 1], digits[|digits| - 1];
      DecrementDigitsNumber(front);
      var s := DecrementDigits(digits).digits;
      if DigitValue(last) > 0 {
        DigitRoundTrip(DigitValue(last) - 1);
        assert s[..|s| - 1] == front;
      } else {
        DigitRoundTrip(RADIX - 1);
        assert s[..|s| - 1] == DecrementDigits(front).digits;
      }
    }
  }

  lemma OneDigitMore(s: string, c: char)
    requires AllDigits(s) && (c == '0' || c == 'z')
    requires Number(s) == if c == '0' then 0 else Power(|s|) - 1
    ensures Number(s + [c]) == if c == '0' then 0 else Power(|s| + 1) - 1
  {
    assert (s + [c])[..|s|] == s;
  }

  lemma OneDigitLess(s: string, c: char)
    requires AllDigits(s) && (c == '0' || c == 'z') && s != ""
    requires Number(s) == if c == '0' then 0 else Power(|s|) - 1
    ensures AllDigits(DropLast(s)) && Number(DropLast(s)) == if c == '0' then 0 else Power(|s| - 1) - 1
  {
  }

  lemma Assembled(head: char, digits: string)
    requires IsHead(head) && AllDigits(digits) && |digits| == Digits(HeadIndex(head))
    ensures IsInteger([head] + digits)
    ensures Value([head] + digits) == Start(HeadIndex(head)) + Number(digits)
  {
    assert ([head] + digits)[1..] == digits;
  }

  /** A carry out of a full magnitude lands on the first key of the next head. */
  lemma CarryIntoNextHead(head: char, zeros: string)
    requires IsHead(head) && head != 'z'
    requires AllDigits(zeros) && |zeros| == Digits(HeadIndex(head)) && Number(zeros) == 0
    ensures IsInteger(NextMagnitude(head, zeros))
    ensures Value(NextMagnitude(head, zeros)) == Start(HeadIndex(head) + 1)
  {
    if head == 'Z' {
      FirstAboveZ();
    } else if head < 'Z' {
      OneDigitLess(zeros, '0');
      Assembled((head as int + 1) as char, DropLast(zeros));
    } else {
      OneDigitMore(zeros, '0');
      Assembled((head as int + 1) as char, zeros + ['0']);
    }
  }

  lemma FirstAboveZ()
    ensures IsInteger("a0") && Value("a0") == 0
  {
    assert "0"[..0] == "" && Number("0") == 0;
    Assembled('a', "0");
    assert "a0" == ['a'] + "0";
  }

  lemma LastBelowA()
    ensures IsInteger("Zz") && Value("Zz") == -1
  {
    assert "z"[..0] == "" && Number("z") == 35;
    Assembled('Z', "z");
    assert "Zz" == ['Z'] + "z";
    StartStep(25);
  }

  /** A borrow out of an empty magnitude lands on the last key of the previous head. */
  lemma BorrowFromPreviousHead(head: char, nines: string)
    requires IsHead(head) && head != 'A'
    requires AllDigits(nines) && |nines| == Digits(HeadIndex(head)) && Number(nines) + 1 == Power(|nines|)
    ensures IsInteger(PreviousMagnitude(head, nines))
    ensures Value(PreviousMagnitude(head, nines)) == Start(HeadIndex(head)) - 1
  {
    if head == 'a' {
      LastBelowA();
    } else if head < 'a' {
      BorrowBelowA(head, nines);
    } else {
      OneDigitLess(nines, 'z');
      LastOfMagnitude((head as int - 1) as char, DropLast(nines));
    }
  }

  lemma BorrowBelowA(head: char, nines: string)
    requires IsHead(head) && 'A' < head < 'a'
    requires AllDigits(nines) && |nines| == Digits(HeadIndex(head)) && Number(nines) + 1 == Power(|nines|)
    ensures IsInteger(PreviousMagnitude(head, nines))
    ensures Value(PreviousMagnitude(head, nines)) == Start(HeadIndex(head)) - 1
  {
    var previous := (head as int - 1) as char;
    OneDigitMore(nines, 'z');
    LastOfMagnitude(previous, nines + ['z']);
    assert PreviousMagnitude(head, nines) == [previous] + (nines + ['z']);
  }

  lemma LastOfMagnitude(head: char, nines: string)
    requires IsHead(head) && AllDigits(nines) && |nines| == Digits(HeadIndex(head))
    requires Number(nines) + 1 == Power(|nines|)
    ensures IsInteger([head] + nines) && Value([head] + nines) == Start(HeadIndex(head) + 1) - 1
  {
    Assembled(head, nines);
    StartStep(HeadIndex(head));
  }

  lemma IncrementWithin(x: string, s: string)
    requires IsInteger(x) && IncrementDigits(x[1..]) == Stepped(s, false)
    requires AllDigits(s) && |s| == |x[1..]| && Number(s) == Number(x[1..]) + 1
    ensures Increment(x).Ok? && IsInteger(Increment(x).value) && Value(Increment(x).value) == Value(x) + 1
  {
    Assembled(x[0], s);
  }

  lemma IncrementAcross(x: string, s: string)
    requires IsInteger(x) && IncrementDigits(x[1..]) == Stepped(s, true) && x[0] != 'z'
    requires AllDigits(s) && |s| == |x[1..]| && Number(s) == 0 && Number(x[1..]) + 1 == Power(|x[1..]|)
    ensures Increment(x).Ok? && IsInteger(Increment(x).value) && Value(Increment(x).value) == Value(x) + 1
  {
    CarryIntoNextHead(x[0], s);
    StartStep(HeadIndex(x[0]));
  }

  lemma DecrementWithin(x: string, s: string)
    requires IsInteger(x) && DecrementDigits(x[1..]) == Stepped(s, false)
    requires AllDigits(s) && |s| == |x[1..]| && Number(s) == Number(x[1..]) - 1
    ensures Decrement(x).Ok? && IsInteger(Decrement(x).value) && Value(Decrement(x).value) == Value(x) - 1
  {
    Assembled(x[0], s);
  }

  /** Every key's number is in range. The top head, full, is the largest key; the bottom
      head, empty, is the smallest. */
  lemma EndShapes(x: string)
    requires IsInteger(x)
    ensures MIN_VALUE <= Value(x) <= MAX_VALUE
    ensures Value(x) == MAX_VALUE <==> x[0] == 'z' && Number(x[1..]) + 1 == Power(|x[1..]|)
    ensures Value(x) == MIN_VALUE <==> x[0] == 'A' && Number(x[1..]) == 0
  {
    TopShape(x);
    BottomShape(x);
  }

  lemma TopShape(x: string)
    requires IsInteger(x)
    ensures Value(x) <= MAX_VALUE
    ensures Value(x) == MAX_VALUE <==> x[0] == 'z' && Number(x[1..]) + 1 == Power(|x[1..]|)
  {
    IntegerShape(x);
    EndValues();
    BelowTheTop(HeadIndex(x[0]), 52);
  }

  lemma BottomShape(x: string)
    requires IsInteger(x)
    ensures MIN_VALUE <= Value(x)
    ensures Value(x) == MIN_VALUE <==> x[0] == 'A' && Number(x[1..]) == 0
  {
    IntegerShape(x);
    EndValues();
    AboveTheBottom(HeadIndex(x[0]), 0);
  }

  lemma BelowTheTop(i: nat, top: nat)
    requires i < top == 52
    ensures Start(i + 1) == Start(i) + Power(Digits(i)) <= Start(top)
    ensures i < 51 ==> Start(i + 1) < Start(top)
  {
    StartStep(i);
    StartMonotone(i + 1, top);
  }

  lemma AboveTheBottom(i: nat, bottom: nat)
    requires bottom == 0 && i < 52
    ensures Start(bottom) <= Start(i)
    ensures i > 0 ==> Start(bottom) < Start(i)
  {
    StartMonotone(bottom, i);
  }

  /** `increment_integer` adds one, and fails exactly at the top of the space. */
  lemma {:induction false} IncrementAddsOne(x: string)
    requires IsInteger(x)
    ensures Increment(x).Ok? <==> Value(x) < MAX_VALUE
    ensures Increment(x).Ok? ==> IsInteger(Increment(x).value) && Value(Increment(x).value) == Value(x) + 1
    ensures Increment(x).Err? ==> Increment(x).error == TopOfSpace
  {
    EndShapes(x);
    IncrementDigitsNumber(x[1..]);
    var stepped := IncrementDigits(x[1..]);
    if !stepped.carry {
      IncrementWithin(x, stepped.digits);
    } else if x[0] != 'z' {
      IncrementAcross(x, stepped.digits);
    }
  }

  /** `decrement_integer` takes one away, and fails exactly at the bottom of the space. */
  lemma {:induction false} DecrementTakesOne(x: string)
    requires IsInteger(x)
    ensures Decrement(x).Ok? <==> Value(x) > MIN_VALUE
    ensures Decrement(x).Ok? ==> IsInteger(Decrement(x).value) && Value(Decrement(x).value) == Value(x) - 1
    ensures Decrement(x).Err? ==> Decrement(x).error == BottomOfSpace
  {
    EndShapes(x);
    DecrementDigitsNumber(x[1..]);
    var stepped := DecrementDigits(x[1..]);
    if !stepped.carry {
      DecrementWithin(x, stepped.digits);
    } else if x[0] != 'A' {
      BorrowFromPreviousHead(x[0], stepped.digits);
    }
  }

  /** Each step undoes the other away from the ends. */
  lemma StepsAreInverse(x: string)
    requires IsInteger(x)
    ensures Increment(x).Ok? ==> IsInteger(Increment(x).value) && Decrement(Increment(x).value) == Ok(x)
    ensures Decrement(x).Ok? ==> IsInteger(Decrement(x).value) && Increment(Decrement(x).value) == Ok(x)
  {
    IncrementAddsOne(x);
    DecrementTakesOne(x);
    if Increment(x).Ok? {
      var y := Increment(x).value;
      DecrementTakesOne(y);
      IntegerOrder(Decrement(y).value, x);
    }
    if Decrement(x).Ok? {
      var y := Decrement(x).value;
      IncrementAddsOne(y);
      IntegerOrder(Increment(y).value, x);
    }
  }

  /** The successor is the very next integer key: none lies between. */
  lemma NothingBetweenSteps(x: string, y: string)
    requires IsInteger(x) && IsInteger(y) && Increment(x).Ok?
    ensures Less(x, Increment(x).value)
    ensures Less(x, y) <==> y == Increment(x).value || Less(Increment(x).value, y)
  {
    IncrementAddsOne(x);
    var s := Increment(x).value;
    IntegerOrder(x, y);
    IntegerOrder(x, s);
    IntegerOrder(s, y);
  }

  // ---- Every number in range is denoted ----

  lemma {:induction false} KeyExists(v: int)
    requires MIN_VALUE <= v <= MAX_VALUE
    ensures exists x :: IsInteger(x) && Value(x) == v
    decreases v - MIN_VALUE
  {
    EndsAreIntegers();
    if v > MIN_VALUE {
      KeyExists(v - 1);
      var x :| IsInteger(x) && Value(x) == v - 1;
      IncrementAddsOne(x);
      assert Value(Increment(x).value) == v;
    }
  }

  /** The integer key that denotes a number. */
  ghost function KeyOf(v: int): (x: string)
    requires MIN_VALUE <= v <= MAX_VALUE
    ensures IsInteger(x) && Value(x) == v
  {
    KeyExists(v);
    var x :| IsInteger(x) && Value(x) == v;
    x
  }

  /** Integer keys and the interval [MIN_VALUE, MAX_VALUE] are order-isomorphic. */
  lemma {:induction false} KeysAreNumbers(x: string, v: int)
    requires IsInteger(x)
    requires MIN_VALUE <= v <= MAX_VALUE
    ensures MIN_VALUE <= Value(x) <= MAX_VALUE
    ensures KeyOf(Value(x)) == x && Value(KeyOf(v)) == v
    ensures Less(x, KeyOf(v)) <==> Value(x) < v
  {
    EndShapes(x);
    IntegerOrder(KeyOf(Value(x)), x);
    IntegerOrder(x, KeyOf(v));
  }
}
