/** The probe reads exactly the numbers of RFC 8259 section 6, each as long as possible. */
module JsonNumbers {
  import opened Options
  import opened Bytes
  import opened JsonGrammar
  import opened JsonScan
  import opened JsonStrings

  predicate NoDigitFirst(s: seq<Byte>) { s != [] ==> !IsDigit(s[0]) }

  lemma {:induction false} DigitsAreTaken(digits: seq<Byte>, rest: seq<Byte>)
    requires AllDigits(digits) && NoDigitFirst(rest)
    ensures TakeDigits(digits + rest) == (digits, rest)
  {
    if digits == [] {
      assert digits + rest == rest;
    } else {
      assert (digits + rest)[1..] == digits[1..] + rest;
      DigitsAreTaken(digits[1..], rest);
      HeadTail(digits);
    }
  }

  lemma WholeIsRead(whole: seq<Byte>, rest: seq<Byte>)
    requires whole != [] && AllDigits(whole) && (whole[0] == 48 ==> |whole| == 1) && NoDigitFirst(rest)
    ensures ScanWhole(whole + rest) == Good(whole, rest)
  {
    DigitsAreTaken(whole, rest);
    assert (whole + rest)[|whole|..] == rest;
    hide TakeDigits;
  }

  function FractionPart(f: Option<seq<Byte>>): seq<Byte> { if f.Some? then [46] + f.value else [] }

  function ExponentPart(e: Option<Exponent>): seq<Byte> { if e.Some? then e.value.Written() else [] }

  function MinusPart(minus: bool): seq<Byte> { if minus then [45] else [] }

  predicate FractionFits(f: Option<seq<Byte>>) { f.Some? ==> f.value != [] && AllDigits(f.value) }

  lemma FractionIsRead(f: Option<seq<Byte>>, rest: seq<Byte>)
    requires FractionFits(f) && NoDigitFirst(rest) && (f.None? && rest != [] ==> rest[0] != 46)
    ensures ScanFraction(FractionPart(f) + rest) == Good(f, rest)
  {
    if f.Some? {
      assert (FractionPart(f) + rest)[1..] == f.value + rest;
      DigitsAreTaken(f.value, rest);
    } else {
      assert FractionPart(f) + rest == rest;
    }
    hide TakeDigits;
  }

  lemma FractionWasThere(s: seq<Byte>)
    requires ScanFraction(s).Good?
    ensures var r := ScanFraction(s);
            && FractionFits(r.value) && s == FractionPart(r.value) + r.rest
            && (r.value.Some? ==> NoDigitFirst(r.rest)) && (r.value.None? && r.rest != [] ==> r.rest[0] != 46)
  {
    var r := ScanFraction(s);
    if r.value.Some? {
      assert s == [46] + (r.value.value + r.rest);
      Join([46], r.value.value, r.rest);
    }
  }

  function SignPart(sign: Option<Byte>): seq<Byte> { if sign.Some? then [sign.value] else [] }

  lemma SignIsTaken(sign: Option<Byte>, rest: seq<Byte>)
    requires (sign.Some? ==> sign.value == 43 || sign.value == 45) && rest != [] && IsDigit(rest[0])
    ensures TakeSign(SignPart(sign) + rest) == (sign, rest)
  {
    if sign.Some? {
      assert (SignPart(sign) + rest)[1..] == rest;
    } else {
      assert SignPart(sign) + rest == rest;
    }
  }

  lemma SignWasThere(s: seq<Byte>)
    ensures var (sign, rest) := TakeSign(s);
            s == SignPart(sign) + rest && (sign.Some? ==> sign.value == 43 || sign.value == 45)
  {
    if s != [] { HeadTail(s); }
  }

  lemma ExponentWritten(e: Exponent, rest: seq<Byte>)
    ensures e.Written() + rest == [e.letter] + (SignPart(e.sign) + (e.digits + rest))
  {
    Join([e.letter] + SignPart(e.sign), e.digits, rest);
    Join([e.letter], SignPart(e.sign), e.digits + rest);
  }

  lemma ExponentIsRead(e: Option<Exponent>, rest: seq<Byte>)
    requires e.Some? ==> e.value.Valid() && NoDigitFirst(rest)
    requires e.None? && rest != [] ==> rest[0] != 101 && rest[0] != 69
    ensures ScanExponent(ExponentPart(e) + rest) == Good(e, rest)
  {
    hide TakeDigits, TakeSign, Exponent.Written;
    if e.Some? {
      ExponentWritten(e.value, rest);
      assert (ExponentPart(e) + rest)[1..] == SignPart(e.value.sign) + (e.value.digits + rest);
      SignIsTaken(e.value.sign, e.value.digits + rest);
      DigitsAreTaken(e.value.digits, rest);
    } else {
      assert ExponentPart(e) + rest == rest;
    }
  }

  lemma ExponentWasThere(s: seq<Byte>)
    requires ScanExponent(s).Good?
    ensures var r := ScanExponent(s);
            && (r.value.Some? ==> r.value.value.Valid() && NoDigitFirst(r.rest))
            && s == ExponentPart(r.value) + r.rest
            && (r.value.None? && r.rest != [] ==> r.rest[0] != 101 && r.rest[0] != 69)
  {
    hide TakeDigits, TakeSign, Exponent.Written;
    var r := ScanExponent(s);
    if r.value.Some? {
      HeadTail(s);
      SignWasThere(s[1..]);
      ExponentWritten(r.value.value, r.rest);
    } else {
      assert [] + r.rest == r.rest;
    }
  }

  lemma NumberInParts(n: Number, rest: seq<Byte>)
    ensures n.Written() + rest
            == MinusPart(n.minus) + (n.whole + (FractionPart(n.fraction) + (ExponentPart(n.exponent) + rest)))
  {
    var a, b, c, d := MinusPart(n.minus), n.whole, FractionPart(n.fraction), ExponentPart(n.exponent);
    assert n.Written() == a + b + c + d;
    Join(a + b + c, d, rest);
    Join(a + b, c, d + rest);
    Join(a, b, c + (d + rest));
    hide MinusPart, FractionPart, ExponentPart;
  }

  /** What follows a number's parts does not continue them. */
  lemma PartsEnd(n: Number, rest: seq<Byte>)
    requires n.Valid() && n.EndsBefore(rest)
    ensures NoDigitFirst(rest) && NoDigitFirst(ExponentPart(n.exponent) + rest)
    ensures NoDigitFirst(FractionPart(n.fraction) + (ExponentPart(n.exponent) + rest))
    ensures var e := ExponentPart(n.exponent) + rest; n.fraction.None? && e != [] ==> e[0] != 46
  {
  }

  lemma NumberTextIsRead(n: Number, rest: seq<Byte>)
    requires n.Valid() && n.EndsBefore(rest)
    ensures ScanNumberText(n.Written() + rest) == Good(n, rest)
    ensures n.Written() + rest != [] && !IsSpace((n.Written() + rest)[0])
  {
    hide ScanWhole, ScanFraction, ScanExponent, FractionPart, ExponentPart, Number.Written, Exponent.Valid, AllDigits;
    var behindFraction := ExponentPart(n.exponent) + rest;
    var behindWhole := FractionPart(n.fraction) + behindFraction;
    NumberInParts(n, rest);
    PartsEnd(n, rest);
    FirstDigit(n.whole, behindWhole);
    FirstOfNumber(n, n.whole + behindWhole);
    WholeIsRead(n.whole, behindWhole);
    FractionIsRead(n.fraction, behindFraction);
    ExponentIsRead(n.exponent, rest);
  }

  lemma FirstDigit(whole: seq<Byte>, behind: seq<Byte>)
    requires whole != [] && AllDigits(whole)
    ensures whole + behind != [] && IsDigit((whole + behind)[0])
  {
  }

  lemma NumberIsRead(w: seq<Byte>, n: Number, rest: seq<Byte>, fits: Number -> bool)
    requires IsWhitespace(w) && n.Valid() && n.EndsBefore(rest)
    ensures fits(n) ==> ScanNumber(w + n.Written() + rest, fits) == Good(n, rest)
    ensures !fits(n) ==> ScanNumber(w + n.Written() + rest, fits) == Bad(MalformedJson, rest)
  {
    hide SkipSpace, ScanNumberText, Number.Written, Number.Valid, Number.EndsBefore;
    var t := n.Written() + rest;
    Join(w, n.Written(), rest);
    NumberTextIsRead(n, rest);
    SpaceIsSkipped(w, t);
    NothingToSkip(t);
  }

  lemma FirstOfNumber(n: Number, behind: seq<Byte>)
    requires behind != [] && IsDigit(behind[0])
    ensures var t := MinusPart(n.minus) + behind;
            && t != [] && !IsSpace(t[0]) && (t[0] == 45 <==> n.minus)
            && (if n.minus then t[1..] else t) == behind
  {
  }

  /** The parts of a number behind its sign. */
  lemma UnsignedWasThere(u: seq<Byte>, n: Number, rest: seq<Byte>)
    requires ScanWhole(u).Good? && ScanWhole(u).value == n.whole
    requires ScanFraction(ScanWhole(u).rest).Good? && ScanFraction(ScanWhole(u).rest).value == n.fraction
    requires ScanExponent(ScanFraction(ScanWhole(u).rest).rest) == Good(n.exponent, rest)
    ensures u == n.whole + (FractionPart(n.fraction) + (ExponentPart(n.exponent) + rest))
    ensures n.Valid() && n.EndsBefore(rest)
  {
    hide ScanWhole, ScanFraction, ScanExponent, FractionPart, ExponentPart, Number.EndsBefore, Exponent.Valid, AllDigits;
    WholeWasThere(u);
    var whole := ScanWhole(u);
    FractionWasThere(whole.rest);
    var fraction := ScanFraction(whole.rest);
    ExponentWasThere(fraction.rest);
    EndsTogether(n, fraction.rest, whole.rest, rest);
  }

  lemma NumberWasThere(s: seq<Byte>, fits: Number -> bool)
    requires ScanNumber(s, fits).Good?
    ensures var r := ScanNumber(s, fits);
            && r.value.Valid() && fits(r.value) && r.value.EndsBefore(r.rest)
            && s == Skipped(s) + r.value.Written() + r.rest
  {
    hide SkipSpace, ScanWhole, ScanFraction, ScanExponent, Number.Written, Skipped, FractionPart, ExponentPart,
         Number.EndsBefore, Number.Valid;
    var t := SkipSpace(s);
    var r := ScanNumber(s, fits);
    var unsigned := if r.value.minus then t[1..] else t;
    UnsignedWasThere(unsigned, r.value, r.rest);
    NumberInParts(r.value, r.rest);
    SkippedIs(s);
    Join(Skipped(s), r.value.Written(), r.rest);
  }

  lemma SkippedIs(s: seq<Byte>)
    ensures s == Skipped(s) + SkipSpace(s) && IsWhitespace(Skipped(s))
  {
  }

  lemma WholeWasThere(s: seq<Byte>)
    requires ScanWhole(s).Good?
    ensures var r := ScanWhole(s);
            && s == r.value + r.rest && r.value != [] && AllDigits(r.value) && (r.value[0] == 48 ==> |r.value| == 1)
            && NoDigitFirst(r.rest)
  {
  }

  lemma EndsTogether(n: Number, behindFraction: seq<Byte>, behindWhole: seq<Byte>, rest: seq<Byte>)
    requires NoDigitFirst(behindWhole) && behindWhole == FractionPart(n.fraction) + behindFraction
    requires behindFraction == ExponentPart(n.exponent) + rest
    requires n.fraction.Some? ==> NoDigitFirst(behindFraction)
    requires n.fraction.None? && behindFraction != [] ==> behindFraction[0] != 46
    requires n.exponent.Some? ==> NoDigitFirst(rest)
    requires n.exponent.None? && rest != [] ==> rest[0] != 101 && rest[0] != 69
    ensures n.EndsBefore(rest)
  {
  }
}
