/** The exact part of number conversion: sign, at most nineteen significant digits and a
    decimal exponent, before the value is scaled in floating point. */
module DecimalToken {
  import opened Options
  import opened Bytes
  import opened JsonGrammar

  const STORED_DIGITS: nat := 19
  const MAXIMUM_DIGITS: nat := 100000
  const MAXIMUM_EXPONENT: nat := 100000
  const MAXIMUM_SCALE: int := 10000

  datatype Decimal = Rejected | Zero(negative: bool) | Scaled(negative: bool, mantissa: nat, exponent: int)

  // ---- the value of digits ---------------------------------------------------------

  function DigitsValue(d: seq<Byte>): nat
    requires AllDigits(d)
  {
    if d == [] then 0 else DigitsValue(d[..|d| - 1]) * 10 + (d[|d| - 1] - 48)
  }

  function Power10(n: nat): (p: nat)
    ensures p >= 1
  {
    if n == 0 then 1 else 10 * Power10(n - 1)
  }

  /** Without the zeros in front. */
  function Significant(d: seq<Byte>): seq<Byte> { if d != [] && d[0] == 48 then Significant(d[1..]) else d }

  function Stored(s: seq<Byte>): (r: seq<Byte>)
    ensures |r| <= STORED_DIGITS && |r| <= |s|
  {
    if |s| <= STORED_DIGITS then s else s[..STORED_DIGITS]
  }

  // ---- any token -------------------------------------------------------------------

  predicate IsExponentLetter(b: Byte) { b == 101 || b == 69 }

  /** Position of the first exponent letter, or the length. */
  function ExponentAt(s: seq<Byte>): (i: nat)
    ensures i <= |s| && (i < |s| ==> IsExponentLetter(s[i])) && forall j :: 0 <= j < i ==> !IsExponentLetter(s[j])
  {
    if s == [] || IsExponentLetter(s[0]) then 0 else 1 + ExponentAt(s[1..])
  }

  function PointAt(s: seq<Byte>): (i: nat)
    ensures i <= |s| && (i < |s| ==> s[i] == 46) && forall j :: 0 <= j < i ==> s[j] != 46
  {
    if s == [] || s[0] == 46 then 0 else 1 + PointAt(s[1..])
  }

  function WithoutPoints(s: seq<Byte>): seq<Byte> {
    if s == [] then []
    else WithoutPoints(s[..|s| - 1]) + (if s[|s| - 1] == 46 then [] else [s[|s| - 1]])
  }

  /** The digits of an exponent, unless one is no digit or a prefix exceeds the limit. */
  function ExponentValue(d: seq<Byte>): (r: Option<nat>)
    ensures r.Some? ==> AllDigits(d) && r.value == DigitsValue(d) && r.value <= MAXIMUM_EXPONENT
  {
    if d == [] then Some(0)
    else
      var before := ExponentValue(d[..|d| - 1]);
      var digit := d[|d| - 1];
      if before.None? || !IsDigit(digit) || before.value * 10 + (digit - 48) > MAXIMUM_EXPONENT then None
      else Some(before.value * 10 + (digit - 48))
  }

  /** Behind the exponent letter. */
  function ExponentOf(s: seq<Byte>): Option<int> {
    var signed := s != [] && (s[0] == 43 || s[0] == 45);
    var digits := if signed then s[1..] else s;
    if digits == [] || ExponentValue(digits).None? then None
    else
      var value: int := ExponentValue(digits).value;
      Some(if signed && s[0] == 45 then -value else value)
  }

  function FractionDigits(significand: seq<Byte>): nat {
    if PointAt(significand) < |significand| then |significand| - PointAt(significand) - 1 else 0
  }

  /** The parts put together. */
  function Assembled(negative: bool, digits: seq<Byte>, fraction: nat, exponent: int): Decimal
    requires AllDigits(digits)
  {
    var s := Significant(digits);
    SignificantDigits(digits);
    if |s| > MAXIMUM_DIGITS then Rejected
    else if s == [] then Zero(negative)
    else
      var scale := exponent - fraction + (|s| - |Stored(s)|);
      if scale < -MAXIMUM_SCALE || scale > MAXIMUM_SCALE then Rejected
      else Scaled(negative, DigitsValue(Stored(s)), scale)
  }

  lemma SignificantDigits(d: seq<Byte>)
    requires AllDigits(d)
    ensures AllDigits(Significant(d)) && |Significant(d)| <= |d|
  {
  }

  function DecimalOf(token: seq<Byte>): Decimal {
    var negative := token != [] && token[0] == 45;
    var body := if negative then token[1..] else token;
    if body == [] then Rejected
    else
      var e := ExponentAt(body);
      var significand := body[..e];
      var exponent := if e < |body| then ExponentOf(body[e + 1..]) else Some(0);
      var digits := WithoutPoints(significand);
      if FractionDigits(significand) > MAXIMUM_DIGITS || exponent.None? || !AllDigits(digits) then Rejected
      else Assembled(negative, digits, FractionDigits(significand), exponent.value)
  }

  // ---- the loops -------------------------------------------------------------------

  /** `find_first_of("eE")`. */
  method FindExponent(s: seq<Byte>) returns (i: nat)
    ensures i == ExponentAt(s)
  {
    i := 0;
    while i < |s|
      invariant i <= |s| && ExponentAt(s) == i + ExponentAt(s[i..])
    {
      if IsExponentLetter(s[i]) { return; }
      assert s[i..][1..] == s[i + 1..];
      i := i + 1;
    }
  }

  /** `find('.')`. */
  method FindPoint(s: seq<Byte>) returns (i: nat)
    ensures i == PointAt(s)
  {
    i := 0;
    while i < |s|
      invariant i <= |s| && PointAt(s) == i + PointAt(s[i..])
    {
      if s[i] == 46 { return; }
      assert s[i..][1..] == s[i + 1..];
      i := i + 1;
    }
  }

  lemma {:induction false} RejectedExponent(d: seq<Byte>, i: nat)
    requires i <= |d| && ExponentValue(d[..i]).None?
    ensures ExponentValue(d).None?
    decreases |d|
  {
    if i == |d| {
      assert d[..i] == d;
    } else {
      assert d[..|d| - 1][..i] == d[..i];
      RejectedExponent(d[..|d| - 1], i);
    }
  }

  lemma NoExponentDigits()
    ensures ExponentValue([]) == Some(0)
  {
  }

  /** One digit more: the value goes on, or the exponent is rejected. */
  lemma ExponentAppends(d: seq<Byte>, i: nat, value: nat)
    requires i < |d| && ExponentValue(d[..i]) == Some(value)
    ensures ExponentValue(d[..i + 1])
            == if !IsDigit(d[i]) || value * 10 + (d[i] - 48) > MAXIMUM_EXPONENT then None
               else Some(value * 10 + (d[i] - 48))
  {
    assert d[..i + 1][..i] == d[..i];
    hide DigitsValue, AllDigits;
  }

  method ParseExponent(s: seq<Byte>) returns (exponent: Option<int>)
    ensures exponent == ExponentOf(s)
  {
    hide ExponentValue;
    var index, negative := 0, false;
    if index < |s| && (s[index] == 43 || s[index] == 45) {
      negative := s[index] == 45;
      index := index + 1;
    }
    if index >= |s| {
      return None;
    }
    var digits := s[index..];
    assert digits == if index == 1 then s[1..] else s;
    var value: nat := 0;
    NoExponentDigits();
    assert digits[..0] == [];
    for i := 0 to |digits|
      invariant ExponentValue(digits[..i]) == Some(value)
    {
      ExponentAppends(digits, i, value);
      if digits[i] < 48 || digits[i] > 57 {
        RejectedExponent(digits, i + 1);
        return None;
      }
      value := value * 10 + (digits[i] - 48);
      if value > MAXIMUM_EXPONENT {
        RejectedExponent(digits, i + 1);
        return None;
      }
    }
    assert digits[..|digits|] == digits;
    var magnitude: int := value;
    return Some(if negative then -magnitude else magnitude);
  }

  /** One digit more: zeros in front are not significant, and only the first nineteen
      significant digits are stored. */
  lemma OneMoreDigit(d: seq<Byte>, digit: Byte)
    requires AllDigits(d) && IsDigit(digit)
    ensures var s := Significant(d);
            && AllDigits(s) && AllDigits(d + [digit])
            && Significant(d + [digit]) == (if s == [] && digit == 48 then [] else s + [digit])
  {
    SignificantDigits(d);
    SignificantAppends(d, digit);
  }

  lemma {:induction false} SignificantAppends(d: seq<Byte>, digit: Byte)
    ensures Significant(d + [digit])
            == if Significant(d) == [] && digit == 48 then [] else Significant(d) + [digit]
  {
    if d != [] && d[0] == 48 {
      assert (d + [digit])[1..] == d[1..] + [digit];
      SignificantAppends(d[1..], digit);
    } else if d == [] {
      assert d + [digit] == [digit];
    }
  }

  lemma StoredAppends(s: seq<Byte>, digit: Byte)
    requires AllDigits(s) && IsDigit(digit)
    ensures AllDigits(s + [digit]) && AllDigits(Stored(s)) && AllDigits(Stored(s + [digit]))
    ensures |s| < STORED_DIGITS <==> |Stored(s)| < STORED_DIGITS
    ensures Stored(s + [digit]) == if |s| < STORED_DIGITS then Stored(s) + [digit] else Stored(s)
    ensures DigitsValue(Stored(s + [digit]))
            == if |s| < STORED_DIGITS then DigitsValue(Stored(s)) * 10 + (digit - 48) else DigitsValue(Stored(s))
  {
    assert Stored(s + [digit]) == if |s| < STORED_DIGITS then Stored(s) + [digit] else Stored(s);
    assert (Stored(s) + [digit])[..|Stored(s)|] == Stored(s);
  }

  lemma NoDigits()
    ensures Significant([]) == [] && Stored([]) == [] && DigitsValue([]) == 0
  {
  }

  /** The loop over the significand. */
  method ReadDigits(significand: seq<Byte>) returns (valid: bool, mantissa: nat, stored: nat, significant: nat)
    ensures valid <==> AllDigits(WithoutPoints(significand))
                       && |Significant(WithoutPoints(significand))| <= MAXIMUM_DIGITS
    ensures valid ==> stored <= significant
    ensures valid ==>
              var s := Significant(WithoutPoints(significand));
              && AllDigits(s) && significant == |s| && stored == |Stored(s)|
              && AllDigits(Stored(s)) && mantissa == DigitsValue(Stored(s))
  {
    hide Significant, Stored, DigitsValue;
    NoDigits();
    mantissa, stored, significant := 0, 0, 0;
    var foundNonzero := false;
    ghost var digits: seq<Byte> := [];
    for index := 0 to |significand|
      invariant digits == WithoutPoints(significand[..index]) && AllDigits(digits) && AllDigits(Significant(digits))
      invariant foundNonzero == (Significant(digits) != [])
      invariant significant == |Significant(digits)| <= MAXIMUM_DIGITS && stored == |Stored(Significant(digits))|
      invariant AllDigits(Stored(Significant(digits))) && mantissa == DigitsValue(Stored(Significant(digits)))
    {
      var character := significand[index];
      assert significand[..index + 1][..index] == significand[..index];
      if character == 46 {
        continue;
      }
      ghost var longer := digits + [character];
      if character < 48 || character > 57 {
        assert longer[|digits|] == character;
        LaterIsLonger(significand, index + 1);
        return false, mantissa, stored, significant;
      }
      var digit := character - 48;
      OneMoreDigit(digits, character);
      if !foundNonzero && digit == 0 {
        digits := longer;
        continue;
      }
      StoredAppends(Significant(digits), character);
      foundNonzero := true;
      significant := significant + 1;
      if significant > MAXIMUM_DIGITS {
        LaterIsLonger(significand, index + 1);
        return false, mantissa, stored, significant;
      }
      if stored < STORED_DIGITS {
        mantissa := mantissa * 10 + digit;
        stored := stored + 1;
      }
      digits := longer;
    }
    assert significand[..|significand|] == significand;
    valid := true;
  }

  /** What disqualifies a beginning disqualifies the whole. */
  lemma {:induction false} LaterIsLonger(s: seq<Byte>, i: nat)
    requires i <= |s|
    ensures WithoutPoints(s[..i]) <= WithoutPoints(s)
    ensures AllDigits(WithoutPoints(s)) ==>
              AllDigits(WithoutPoints(s[..i])) && |Significant(WithoutPoints(s[..i]))| <= |Significant(WithoutPoints(s))|
    decreases |s|
  {
    if i == |s| {
      assert s[..i] == s;
    } else {
      var init := s[..|s| - 1];
      assert init[..i] == s[..i];
      LaterIsLonger(init, i);
      var before := WithoutPoints(init);
      if s[|s| - 1] != 46 {
        SignificantAppends(before, s[|s| - 1]);
        assert before == WithoutPoints(s)[..|before|];
      } else {
        assert WithoutPoints(s) == before;
      }
    }
  }

  /** `parse_decimal_token` up to the floating-point scaling, for any bytes. */
  method ParseDecimalToken(token: seq<Byte>) returns (r: Decimal)
    ensures r == DecimalOf(token)
  {
    hide WithoutPoints, Significant, Stored, DigitsValue, ExponentAt, PointAt, ExponentOf, AllDigits;
    if |token| == 0 {
      return Rejected;
    }
    var body, negative := token, false;
    if token[0] == 45 {
      negative := true;
      body := token[1..];
    }
    if |body| == 0 {
      return Rejected;
    }
    var exponentOffset := FindExponent(body);
    var significand := body[..exponentOffset];
    var point := FindPoint(significand);
    var fraction := if point < |significand| then |significand| - point - 1 else 0;
    if fraction > MAXIMUM_DIGITS {
      return Rejected;
    }
    var explicitExponent := 0;
    if exponentOffset < |body| {
      var parsed := ParseExponent(body[exponentOffset + 1..]);
      if parsed.None? {
        return Rejected;
      }
      explicitExponent := parsed.value;
    }
    var valid, mantissa, stored, significant := ReadDigits(significand);
    if !valid {
      return Rejected;
    }
    if significant == 0 {
      return Zero(negative);
    }
    var ignored := significant - stored;
    var scale := explicitExponent - fraction + ignored;
    if scale < -MAXIMUM_SCALE || scale > MAXIMUM_SCALE {
      return Rejected;
    }
    return Scaled(negative, mantissa, scale);
  }
}
