/** Text order and the base-36 digit alphabet that rank keys are written in
    (`scripts/queue.py`). */
module RankText {

  datatype RankError =
    | EmptyRank
    | BadHead
    | TooShort
    | Reserved
    | BadFraction
    | TrailingZero
    | BadDigit
    | TopOfSpace
    | BottomOfSpace
    | NotBelow

  datatype Result<+T> = Ok(value: T) | Err(error: RankError)

  // ---- Plain string comparison ----

  /** Python's `a < b` on strings: code points left to right, a proper prefix first. */
  predicate Less(a: string, b: string) {
    b != "" && (a == "" || a[0] < b[0] || (a[0] == b[0] && Less(a[1..], b[1..])))
  }

  lemma {:induction false} LessIrreflexive(a: string)
    ensures !Less(a, a)
  {
    if a != "" {
      LessIrreflexive(a[1..]);
    }
  }

  lemma {:induction false} LessTransitive(a: string, b: string, c: string)
    requires Less(a, b) && Less(b, c)
    ensures Less(a, c)
  {
    if a != "" && a[0] == b[0] == c[0] {
      LessTransitive(a[1..], b[1..], c[1..]);
    }
  }

  lemma {:induction false} LessTotal(a: string, b: string)
    ensures Less(a, b) || a == b || Less(b, a)
  {
    if a != "" && b != "" && a[0] == b[0] {
      LessTotal(a[1..], b[1..]);
      assert a == [a[0]] + a[1..] && b == [b[0]] + b[1..];
    }
  }

  lemma LessAsymmetric(a: string, b: string)
    requires Less(a, b)
    ensures !Less(b, a) && a != b
  {
    LessIrreflexive(a);
    if Less(b, a) {
      LessTransitive(a, b, a);
    }
  }

  /** A shared prefix plays no part in a comparison. */
  lemma {:induction false} LessPrefix(p: string, a: string, b: string)
    ensures Less(p + a, p + b) <==> Less(a, b)
  {
    if p == "" {
      assert p + a == a && p + b == b;
    } else {
      assert (p + a)[1..] == p[1..] + a && (p + b)[1..] == p[1..] + b;
      LessPrefix(p[1..], a, b);
    }
  }

  /** Text that extends a string sorts above it. */
  lemma LessExtension(p: string, a: string)
    requires a != ""
    ensures Less(p, p + a)
  {
    LessPrefix(p, "", a);
    assert p + "" == p;
  }

  /** Texts of equal length that already differ compare the same whatever follows. */
  lemma {:induction false} LessSameLength(a: string, b: string, s: string, t: string)
    requires |a| == |b| && a != b
    ensures Less(a + s, b + t) <==> Less(a, b)
  {
    assert (a + s)[0] == a[0] && (b + t)[0] == b[0];
    if a[0] == b[0] {
      assert (a + s)[1..] == a[1..] + s && (b + t)[1..] == b[1..] + t;
      assert a == [a[0]] + a[1..] && b == [b[0]] + b[1..];
      LessSameLength(a[1..], b[1..], s, t);
    }
  }

  /** Equal-length texts compare by all but the last character, then by the last. */
  lemma {:induction false} LessLast(a: string, x: char, b: string, y: char)
    requires |a| == |b|
    ensures Less(a + [x], b + [y]) <==> Less(a, b) || (a == b && x < y)
  {
    if a == b {
      LessPrefix(a, [x], [y]);
      LessIrreflexive(a);
    } else {
      LessSameLength(a, b, [x], [y]);
    }
  }

  // ---- Digits ----

  const RADIX := 36

  predicate IsDigit(c: char) {
    '0' <= c <= '9' || 'a' <= c <= 'z'
  }

  predicate AllDigits(s: string) {
    forall i :: 0 <= i < |s| ==> IsDigit(s[i])
  }

  /** The position of a character in the alphabet. */
  function DigitValue(c: char): (d: nat)
    requires IsDigit(c)
    ensures d < RADIX && DigitChar(d) == c
  {
    if c <= '9' then c as int - '0' as int else c as int - 'a' as int + 10
  }

  /** The character at a position of the alphabet. */
  function DigitChar(d: nat): (c: char)
    requires d < RADIX
    ensures IsDigit(c)
  {
    if d < 10 then (d + '0' as int) as char else (d - 10 + 'a' as int) as char
  }

  lemma DigitRoundTrip(d: nat)
    requires d < RADIX
    ensures DigitValue(DigitChar(d)) == d
  {
  }

  /** Character order is digit order. */
  lemma DigitOrder(c: char, d: char)
    requires IsDigit(c) && IsDigit(d)
    ensures c < d <==> DigitValue(c) < DigitValue(d)
    ensures c == d <==> DigitValue(c) == DigitValue(d)
  {
  }
}
