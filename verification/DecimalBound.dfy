/** How close the scanned decimal is to the number that was written. */
module DecimalBound {
  import opened Options
  import opened Bytes
  import opened JsonGrammar
  import opened JsonNumbers
  import opened DecimalToken

  /** A number times a power of ten. */
  function Shifted(m: nat, k: nat): nat { m * Power10(k) }

  lemma {:induction false} PowersAdd(a: nat, b: nat)
    ensures Power10(a + b) == Power10(a) * Power10(b)
  {
    if a > 0 {
      PowersAdd(a - 1, b);
      assert 10 * (Power10(a - 1) * Power10(b)) == (10 * Power10(a - 1)) * Power10(b);
    }
  }

  lemma {:induction false} DigitsJoin(a: seq<Byte>, b: seq<Byte>)
    requires AllDigits(a) && AllDigits(b)
    ensures AllDigits(a + b) && DigitsValue(a + b) == Shifted(DigitsValue(a), |b|) + DigitsValue(b)
  {
    if b == [] {
      assert a + b == a;
    } else {
      var init := b[..|b| - 1];
      assert (a + b)[..|a + b| - 1] == a + init;
      DigitsJoin(a, init);
      ShiftOnce(DigitsValue(a), |init|);
    }
  }

  lemma ShiftOnce(m: nat, k: nat)
    ensures Shifted(m, k) * 10 == Shifted(m, k + 1)
  {
  }

  lemma {:induction false} DigitsBelow(d: seq<Byte>)
    requires AllDigits(d)
    ensures DigitsValue(d) < Power10(|d|)
  {
    if d != [] {
      DigitsBelow(d[..|d| - 1]);
    }
  }

  lemma {:induction false} DigitsAbove(d: seq<Byte>)
    requires AllDigits(d) && d != [] && d[0] != 48
    ensures DigitsValue(d) >= Power10(|d| - 1)
  {
    if |d| > 1 {
      DigitsAbove(d[..|d| - 1]);
    }
  }

  lemma {:induction false} LeadingZeros(d: seq<Byte>)
    requires AllDigits(d)
    ensures AllDigits(Significant(d)) && DigitsValue(Significant(d)) == DigitsValue(d)
    ensures Significant(d) != [] ==> Significant(d)[0] != 48
  {
    if d != [] && d[0] == 48 {
      LeadingZeros(d[1..]);
      assert d == [d[0]] + d[1..];
      DigitsJoin([d[0]], d[1..]);
    }
  }

  // ---- the parts of a number -------------------------------------------------------

  function AllDigitsOf(n: Number): seq<Byte> { n.whole + if n.fraction.Some? then n.fraction.value else [] }

  function FractionLength(n: Number): nat { if n.fraction.Some? then |n.fraction.value| else 0 }

  function WrittenExponent(n: Number): int
    requires n.Valid()
  {
    if n.exponent.None? then 0
    else
      var value: int := DigitsValue(n.exponent.value.digits);
      if n.exponent.value.sign == Some(45) then -value else value
  }

  /** The exponent and the fraction are short enough to be considered. */
  predicate Considered(n: Number)
    requires n.Valid()
  {
    && FractionLength(n) <= MAXIMUM_DIGITS
    && (n.exponent.Some? ==> DigitsValue(n.exponent.value.digits) <= MAXIMUM_EXPONENT)
  }

  lemma {:induction false} ExponentFits(d: seq<Byte>)
    requires AllDigits(d)
    ensures ExponentValue(d) == if DigitsValue(d) <= MAXIMUM_EXPONENT then Some(DigitsValue(d)) else None
  {
    if d != [] {
      ExponentFits(d[..|d| - 1]);
    }
  }

  lemma {:induction false} NoLetterBefore(p: seq<Byte>, s: seq<Byte>)
    requires forall i :: 0 <= i < |p| ==> !IsExponentLetter(p[i])
    ensures ExponentAt(p + s) == |p| + ExponentAt(s)
  {
    if p == [] {
      assert p + s == s;
    } else {
      assert (p + s)[1..] == p[1..] + s;
      NoLetterBefore(p[1..], s);
    }
  }

  lemma {:induction false} NoPointBefore(p: seq<Byte>, s: seq<Byte>)
    requires AllDigits(p)
    ensures PointAt(p + s) == |p| + PointAt(s)
  {
    if p == [] {
      assert p + s == s;
    } else {
      assert (p + s)[1..] == p[1..] + s;
      NoPointBefore(p[1..], s);
    }
  }

  lemma {:induction false} PointsBetween(a: seq<Byte>, b: seq<Byte>)
    ensures WithoutPoints(a + b) == WithoutPoints(a) + WithoutPoints(b)
  {
    if b == [] {
      assert a + b == a && WithoutPoints(a) + [] == WithoutPoints(a);
    } else {
      var init := b[..|b| - 1];
      assert (a + b)[..|a + b| - 1] == a + init;
      PointsBetween(a, init);
    }
  }

  lemma {:induction false} DigitsStay(d: seq<Byte>)
    requires AllDigits(d)
    ensures WithoutPoints(d) == d
  {
    if d != [] {
      DigitsStay(d[..|d| - 1]);
      assert d == d[..|d| - 1] + [d[|d| - 1]];
    }
  }

  function Significand(n: Number): seq<Byte> { n.whole + FractionPart(n.fraction) }

  lemma PointedParts(whole: seq<Byte>, fraction: seq<Byte>)
    requires AllDigits(whole) && AllDigits(fraction)
    ensures WithoutPoints(whole + ([46] + fraction)) == whole + fraction
    ensures PointAt(whole + ([46] + fraction)) == |whole|
  {
    assert WithoutPoints([46]) == [] by { assert WithoutPoints([46]) == WithoutPoints([46][..0]) + []; }
    PointsBetween(whole, [46] + fraction);
    PointsBetween([46], fraction);
    DigitsStay(whole);
    DigitsStay(fraction);
    assert [] + fraction == fraction;
    NoPointBefore(whole, [46] + fraction);
    hide WithoutPoints, AllDigits;
  }

  lemma PlainParts(whole: seq<Byte>)
    requires AllDigits(whole)
    ensures WithoutPoints(whole + []) == whole && PointAt(whole + []) == |whole|
  {
    assert whole + [] == whole;
    DigitsStay(whole);
    NoPointBefore(whole, []);
    hide WithoutPoints, AllDigits;
  }

  lemma SignificandParts(n: Number)
    requires n.Valid()
    ensures WithoutPoints(Significand(n)) == AllDigitsOf(n)
    ensures FractionDigits(Significand(n)) == FractionLength(n)
  {
    hide WithoutPoints, PointAt, AllDigits;
    if n.fraction.Some? {
      PointedParts(n.whole, n.fraction.value);
    } else {
      PlainParts(n.whole);
      assert n.whole + [] == n.whole;
    }
  }

  lemma SignificandBytes(n: Number)
    requires n.Valid()
    ensures AllDigits(AllDigitsOf(n))
    ensures forall i :: 0 <= i < |Significand(n)| ==> !IsExponentLetter(Significand(n)[i])
  {
  }

  lemma ExponentParts(e: Exponent)
    requires e.Valid()
    ensures ExponentOf(e.Written()[1..])
            == if DigitsValue(e.digits) > MAXIMUM_EXPONENT then None
               else Some(if e.sign == Some(45) then -(DigitsValue(e.digits) as int) else DigitsValue(e.digits) as int)
  {
    ExponentFits(e.digits);
    if e.sign.Some? {
      assert e.Written()[1..] == [e.sign.value] + e.digits;
      assert e.Written()[1..][1..] == e.digits;
    } else {
      assert e.Written()[1..] == e.digits;
    }
  }

  /** On a number of the grammar the scan sees the parts it was written with. */
  lemma NumberIsScanned(n: Number)
    requires n.Valid()
    ensures AllDigits(AllDigitsOf(n))
    ensures DecimalOf(n.Written())
            == if !Considered(n) then Rejected
               else Assembled(n.minus, AllDigitsOf(n), FractionLength(n), WrittenExponent(n))
  {
    hide WithoutPoints, ExponentAt, ExponentOf, Assembled, FractionDigits, AllDigits, Exponent.Written, DigitsValue,
         Significand, Exponent.Valid, ExponentPart, Number.Written;
    SignificandParts(n);
    SignificandBytes(n);
    SignedBody(n);
    BodyParts(n);
    if n.exponent.Some? { ExponentParts(n.exponent.value); }
  }

  /** The exponent letter is where the significand ends. */
  lemma BodyParts(n: Number)
    requires n.Valid()
    ensures var body, at := Significand(n) + ExponentPart(n.exponent), |Significand(n)|;
            && ExponentAt(body) == at && body[..at] == Significand(n)
            && (n.exponent.Some? <==> at < |body|)
            && (n.exponent.Some? ==> body[at + 1..] == n.exponent.value.Written()[1..])
  {
    var behind := ExponentPart(n.exponent);
    SignificandBytes(n);
    NoLetterBefore(Significand(n), behind);
    if n.exponent.Some? {
      StartsWithLetter(n.exponent.value);
    } else {
      NoExponent();
    }
    hide ExponentAt, Exponent.Written, Exponent.Valid, Significand;
    assert (Significand(n) + behind)[..|Significand(n)|] == Significand(n);
    if n.exponent.Some? {
      assert (Significand(n) + behind)[|Significand(n)| + 1..] == behind[1..];
    }
  }

  lemma SignedBody(n: Number)
    requires n.Valid()
    ensures var body := Significand(n) + ExponentPart(n.exponent);
            && body != [] && n.Written() != [] && (n.Written()[0] == 45 <==> n.minus)
            && (if n.minus then n.Written()[1..] else n.Written()) == body
  {
    BodyIsWritten(n);
    hide Significand, ExponentPart, Number.Written;
    SignInFront(n.minus, Significand(n) + ExponentPart(n.exponent));
  }

  lemma BodyIsWritten(n: Number)
    requires n.Valid()
    ensures var body := Significand(n) + ExponentPart(n.exponent);
            n.Written() == MinusPart(n.minus) + body && body != [] && body[0] != 45
  {
    assert n.Written() == MinusPart(n.minus) + n.whole + FractionPart(n.fraction) + ExponentPart(n.exponent);
    hide ExponentPart, FractionPart, Number.Written;
    assert Significand(n)[0] == n.whole[0];
  }

  lemma SignInFront(minus: bool, body: seq<Byte>)
    requires body != [] && body[0] != 45
    ensures var s := MinusPart(minus) + body;
            s != [] && (s[0] == 45 <==> minus) && (if minus then s[1..] else s) == body
  {
  }

  lemma StartsWithLetter(e: Exponent)
    requires e.Valid()
    ensures |e.Written()| >= 1 && ExponentAt(e.Written()) == 0
  {
  }

  lemma NoExponent()
    ensures ExponentAt([]) == 0
  {
  }

  // ---- the bound -------------------------------------------------------------------

  const UINT64_LIMIT: nat := 0x1_0000_0000_0000_0000

  const PRECISION: nat := 1_000_000_000_000_000_000

  lemma PowersOfTen()
    ensures Power10(18) == PRECISION && Power10(19) <= UINT64_LIMIT
  {
    assert Power10(3) == 1000;
    PowersAdd(3, 3);
    PowersAdd(6, 6);
    PowersAdd(12, 6);
    PowersAdd(18, 1);
    assert Power10(1) == 10;
  }

  /** The digits that are written, and what the first nineteen significant ones amount to. */
  function Whole(n: Number): nat
    requires n.Valid()
  {
    SignificandBytes(n);
    DigitsValue(AllDigitsOf(n))
  }

  function SignificantOf(n: Number): seq<Byte> { Significant(AllDigitsOf(n)) }

  /** `m` is what is left of `v` when its last `k` digits are cut off. */
  predicate CutOff(v: nat, m: nat, k: nat) {
    Shifted(m, k) <= v < Shifted(m + 1, k)
  }

  /** The error relative to the written value is below ten to the minus eighteen. */
  predicate RelativelyClose(v: nat, m: nat, k: nat) {
    Shifted(m, k) <= v && (v - Shifted(m, k)) * PRECISION < v
  }

  lemma MulMonotone(a: nat, b: nat, c: nat)
    requires a <= b
    ensures a * c <= b * c
  {
  }

  lemma TailIsSmall(v: nat, m: nat, k: nat, tail: nat)
    requires v == Shifted(m, k) + tail && tail < Power10(k) && m >= PRECISION
    ensures RelativelyClose(v, m, k)
  {
    MulMonotone(tail + 1, Power10(k), PRECISION);
    MulMonotone(PRECISION, m, Power10(k));
    assert (tail + 1) * PRECISION == tail * PRECISION + PRECISION;
    assert Power10(k) * PRECISION == PRECISION * Power10(k);
  }

  /** Storing nineteen digits cuts off the rest. */
  lemma StoredIsCutOff(s: seq<Byte>)
    requires AllDigits(s) && s != [] && s[0] != 48
    ensures AllDigits(Stored(s)) && DigitsValue(Stored(s)) < UINT64_LIMIT && DigitsValue(s) > 0
    ensures CutOff(DigitsValue(s), DigitsValue(Stored(s)), |s| - |Stored(s)|)
    ensures RelativelyClose(DigitsValue(s), DigitsValue(Stored(s)), |s| - |Stored(s)|)
    ensures |s| <= STORED_DIGITS ==> DigitsValue(Stored(s)) == DigitsValue(s)
  {
    StoredAndTail(s);
    hide DigitsValue, AllDigits, Power10, Shifted, Stored;
    var stored := Stored(s);
    var tail := s[|stored|..];
    DigitsJoin(stored, tail);
    DigitsBelow(tail);
    DigitsBelow(stored);
    DigitsAbove(stored);
    PowersOfTen();
    PowersRise(|stored|, STORED_DIGITS);
    var m, k := DigitsValue(stored), |tail|;
    if k == 0 {
      assert s == stored;
      NoShift(m);
    } else {
      NextShift(m, k);
      TailIsSmall(DigitsValue(s), m, k, DigitsValue(tail));
    }
  }

  lemma StoredAndTail(s: seq<Byte>)
    requires AllDigits(s) && s != [] && s[0] != 48
    ensures var stored := Stored(s);
            && stored != [] && stored[0] != 48 && AllDigits(stored) && AllDigits(s[|stored|..])
            && s == stored + s[|stored|..]
            && |stored| <= STORED_DIGITS && (|stored| < |s| ==> |stored| == STORED_DIGITS)
  {
  }

  lemma NextShift(m: nat, k: nat)
    ensures Shifted(m + 1, k) == Shifted(m, k) + Power10(k)
  {
  }

  lemma NoShift(m: nat)
    ensures Shifted(m, 0) == m && Shifted(m + 1, 0) == m + 1
  {
  }

  lemma {:induction false} PowersRise(a: nat, b: nat)
    requires a <= b
    ensures Power10(a) <= Power10(b)
    decreases b
  {
    if a < b {
      PowersRise(a, b - 1);
    }
  }

  /** Ten to the `scale` times the mantissa is the written number with its last `k` digits cut
      off: exact up to nineteen significant digits, otherwise below it by a relative error under
      ten to the minus eighteen; and the mantissa fits 64 bits. */
  lemma DecimalIsClose(n: Number)
    requires n.Valid() && DecimalOf(n.Written()).Scaled?
    ensures var r := DecimalOf(n.Written());
            var k := r.exponent - (WrittenExponent(n) - FractionLength(n));
            && r.negative == n.minus && k >= 0
            && CutOff(Whole(n), r.mantissa, k) && RelativelyClose(Whole(n), r.mantissa, k)
            && (|SignificantOf(n)| <= STORED_DIGITS ==> k == 0 && r.mantissa == Whole(n))
            && 0 < r.mantissa < UINT64_LIMIT
  {
    hide Shifted, DigitsValue, AllDigits, Stored, Number.Written, CutOff, RelativelyClose, DecimalOf, Significant, Power10,
         Assembled, WrittenExponent;
    NumberIsScanned(n);
    LeadingZeros(AllDigitsOf(n));
    AssembledParts(n.minus, AllDigitsOf(n), FractionLength(n), WrittenExponent(n));
    StoredIsCutOff(SignificantOf(n));
    PositiveStored(SignificantOf(n));
  }

  lemma AssembledParts(negative: bool, digits: seq<Byte>, fraction: nat, exponent: int)
    requires AllDigits(digits) && Assembled(negative, digits, fraction, exponent).Scaled?
    ensures var r := Assembled(negative, digits, fraction, exponent);
            var s := Significant(digits);
            && s != [] && AllDigits(Stored(s)) && r.negative == negative && r.mantissa == DigitsValue(Stored(s))
            && r.exponent == exponent - fraction + (|s| - |Stored(s)|)
            && |Stored(s)| <= |s| && (|s| <= STORED_DIGITS ==> |Stored(s)| == |s|)
  {
  }

  lemma PositiveStored(s: seq<Byte>)
    requires AllDigits(s) && s != [] && s[0] != 48
    ensures AllDigits(Stored(s)) && DigitsValue(Stored(s)) > 0
  {
    DigitsAbove(Stored(s));
  }

  /** A number is taken for zero exactly when it is zero, and rejected exactly when its parts or
      its scale are out of range. */
  lemma ZeroAndRejectedAreRight(n: Number)
    requires n.Valid()
    ensures var r := DecimalOf(n.Written());
            var s := SignificantOf(n);
            var scale := WrittenExponent(n) - FractionLength(n) + (|s| - |Stored(s)|);
            var usable := Considered(n) && |s| <= MAXIMUM_DIGITS;
            && (r.Zero? <==> usable && Whole(n) == 0) && (r.Zero? ==> r.negative == n.minus)
            && (r.Rejected? <==> !usable || (Whole(n) > 0 && !(-MAXIMUM_SCALE <= scale <= MAXIMUM_SCALE)))
  {
    NumberIsScanned(n);
    LeadingZeros(AllDigitsOf(n));
    var s := SignificantOf(n);
    if s != [] { StoredIsCutOff(s); }
    hide Shifted, AllDigits, Stored, Number.Written, CutOff, RelativelyClose;
  }
}
