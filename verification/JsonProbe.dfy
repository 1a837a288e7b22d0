/** The probe as an object: a cursor over the stream, the first error, and one method for each
    thing it reads. Every method reads what the functions of `JsonScan` and `NamMetadata` say. */
module JsonProbe {
  import opened Options
  import opened Bytes
  import opened JsonGrammar
  import opened JsonScan
  import opened JsonStrings
  import opened JsonNumbers
  import opened NamMetadata
  import opened DecimalToken

  datatype ErrorInfo = ErrorInfo(code: Code, offset: nat)

  /** Scaling in floating point: none when the result is not finite or is zero. */
  type ToDouble = (bool, nat, int) -> Option<real>

  function Converted(d: Decimal, toDouble: ToDouble): Option<real> {
    match d
    case Rejected => None
    case Zero(_) => Some(0.0)
    case Scaled(negative, mantissa, exponent) => toDouble(negative, mantissa, exponent)
  }

  function ReaderFor(maxDepth: nat, maxString: nat, toDouble: ToDouble): Reader {
    Reader(Limits(maxDepth, maxString, (n: Number) => Converted(DecimalOf(n.Written()), toDouble).Some?),
           (n: Number) => Value(Converted(DecimalOf(n.Written()), toDouble)))
  }

  function Value(x: Option<real>): real { if x.Some? then x.value else 0.0 }

  class JsonProbe {
    const text: seq<Byte>
    const maxDepth: nat
    const maxString: nat
    const toDouble: ToDouble
    var offset: nat
    var error: Option<ErrorInfo>

    /** The input from the cursor on. */
    ghost var rest: seq<Byte>

    ghost predicate Tracks()
      reads this`offset, this`rest
    {
      offset <= |text| && rest == text[offset..]
    }

    ghost function R(): Reader { ReaderFor(maxDepth, maxString, toDouble) }

    /** No error so far. */
    ghost predicate Going()
      reads this
    {
      Tracks() && error.None?
    }

    /** The probe has done what the scan says: it stands behind what was read, or has reported
        the error where the scan stopped. */
    ghost predicate Did<T>(r: Scan<T>, ok: bool)
      reads this
    {
      && Tracks() && rest == r.rest && ok == r.Good?
      && error == if r.Good? then None else Some(ErrorInfo(r.code, |text| - |r.rest|))
    }

    constructor (text: seq<Byte>, maxDepth: nat, maxString: nat, toDouble: ToDouble)
      ensures Going() && offset == 0 && rest == text
      ensures this.text == text && this.maxDepth == maxDepth && this.maxString == maxString && this.toDouble == toDouble
    {
      this.text := text;
      this.maxDepth := maxDepth;
      this.maxString := maxString;
      this.toDouble := toDouble;
      offset := 0;
      error := None;
      rest := text;
    }

    method Peek() returns (value: Option<Byte>)
      requires Tracks()
      ensures value == if rest == [] then None else Some(rest[0])
    {
      value := if offset < |text| then Some(text[offset]) else None;
    }

    method Get() returns (value: Option<Byte>)
      requires Tracks()
      modifies this`offset, this`rest
      ensures Tracks()
      ensures value == if old(rest) == [] then None else Some(old(rest)[0])
      ensures rest == if old(rest) == [] then [] else old(rest)[1..]
    {
      if offset < |text| {
        value := Some(text[offset]);
        offset := offset + 1;
        rest := rest[1..];
      } else {
        value := None;
      }
    }

    /** The first error stays. */
    method SetError(code: Code)
      requires Tracks()
      modifies this`error
      ensures error == if old(error).None? then Some(ErrorInfo(code, |text| - |rest|)) else old(error)
    {
      if error.None? {
        error := Some(ErrorInfo(code, offset));
      }
    }

    method SkipWhitespace()
      requires Going()
      modifies this`offset, this`rest
      ensures Going() && rest == SkipSpace(old(rest))
    {
      while true
        invariant Going() && SkipSpace(rest) == SkipSpace(old(rest))
        decreases |rest|
      {
        var value := Peek();
        if value.Some? && (value.value == 32 || value.value == 9 || value.value == 13 || value.value == 10) {
          var _ := Get();
        } else {
          return;
        }
      }
    }

    method Consume(expected: Byte) returns (ok: bool)
      requires Going()
      modifies this`offset, this`rest
      ensures Going() && ok == Expect(old(rest), expected).Good? && rest == Expect(old(rest), expected).rest
    {
      hide SkipSpace;
      SkipWhitespace();
      var value := Peek();
      if value != Some(expected) {
        return false;
      }
      var _ := Get();
      return true;
    }

    method ExpectMark(expected: Byte) returns (ok: bool)
      requires Going()
      modifies this`offset, this`rest, this`error
      ensures Did(Expect(old(rest), expected), ok)
    {
      hide SkipSpace;
      ok := Consume(expected);
      if !ok {
        SetError(MalformedJson);
      }
    }

    method CheckDepth(depth: nat) returns (ok: bool)
      requires Going()
      modifies this`error
      ensures ok == (depth <= maxDepth)
      ensures error == if ok then None else Some(ErrorInfo(NestingTooDeep, |text| - |rest|))
    {
      if depth <= maxDepth {
        return true;
      }
      SetError(NestingTooDeep);
      return false;
    }

    // ---- strings -------------------------------------------------------------------

    method ParseUnicodeEscape() returns (ok: bool, value: nat)
      requires Going()
      modifies this`offset, this`rest, this`error
      ensures Did(ScanHex(old(rest), 4, 0), ok) && (ok ==> value == ScanHex(old(rest), 4, 0).value < 0x10000)
    {
      hide ScanHex, IsHex, HexValue, JsonProbe.Tracks;
      ghost var result := ScanHex(rest, 4, 0);
      HexBound(rest);
      value := 0;
      for index := 0 to 4
        invariant Going() && ScanHex(rest, 4 - index, value) == result
      {
        HexStep(rest, 4 - index, value);
        var digit := Get();
        if digit.None? {
          SetError(MalformedJson);
          return false, value;
        }
        if !IsHex(digit.value) {
          SetError(MalformedJson);
          return false, value;
        }
        value := value * 16 + HexValue(digit.value);
      }
      HexStep(rest, 0, value);
      ok := true;
    }

    lemma HexStep(s: seq<Byte>, count: nat, value: nat)
      ensures ScanHex(s, count, value)
              == if count == 0 then Good(value, s)
                 else if s == [] then Bad(MalformedJson, s)
                 else if !IsHex(s[0]) then Bad(MalformedJson, s[1..])
                 else ScanHex(s[1..], count - 1, value * 16 + HexValue(s[0]))
    {
    }

    lemma HexBound(s: seq<Byte>)
      ensures ScanHex(s, 4, 0).Good? ==> ScanHex(s, 4, 0).value < 0x10000
    {
    }

    /** The second half of a surrogate pair. */
    method ParseLowSurrogate(high: nat) returns (ok: bool, codepoint: nat)
      requires Going() && IsHigh(high)
      modifies this`offset, this`rest, this`error
      ensures Did(ScanLow(old(rest), high), ok)
      ensures ok ==> codepoint <= 0x10FFFF && Utf8(codepoint) == ScanLow(old(rest), high).value
    {
      hide ScanHex, Utf8, JsonProbe.Tracks;
      codepoint := high;
      ghost var start := rest;
      var first := Get();
      if first != Some(BACKSLASH) {
        SetError(MalformedJson);
        return false, codepoint;
      }
      var second := Get();
      if second != Some(117) {
        SetError(MalformedJson);
        return false, codepoint;
      }
      assert rest == start[2..];
      var low;
      ok, low := ParseUnicodeEscape();
      if !ok || !IsLow(low) {
        SetError(MalformedJson);
        return false, codepoint;
      }
      codepoint := Combined(high, low);
    }

    /** Behind `\u`: the escape, and the second half of a surrogate pair. */
    method ParseCodepoint() returns (ok: bool, bytes: seq<Byte>)
      requires Going()
      modifies this`offset, this`rest, this`error
      ensures Did(ScanUnicode(old(rest)), ok) && (ok ==> bytes == ScanUnicode(old(rest)).value)
    {
      hide ScanHex, ScanLow, Utf8, JsonProbe.Tracks;
      bytes := [];
      var codepoint: nat;
      ok, codepoint := ParseUnicodeEscape();
      if !ok {
        return;
      }
      if IsHigh(codepoint) {
        ok, codepoint := ParseLowSurrogate(codepoint);
        if !ok {
          return;
        }
      } else if IsLow(codepoint) {
        SetError(MalformedJson);
        return false, bytes;
      }
      return true, Utf8(codepoint);
    }

    /** Behind a backslash. */
    method ParseEscape() returns (ok: bool, bytes: seq<Byte>)
      requires Going()
      modifies this`offset, this`rest, this`error
      ensures Did(ScanEscape(old(rest)), ok) && (ok ==> bytes == ScanEscape(old(rest)).value)
    {
      hide ScanUnicode;
      ok, bytes := true, [];
      var escaped := Get();
      if escaped == Some(QUOTE) || escaped == Some(BACKSLASH) || escaped == Some(47) {
        bytes := [escaped.value];
      } else if escaped == Some(98) {
        bytes := [8];
      } else if escaped == Some(102) {
        bytes := [12];
      } else if escaped == Some(110) {
        bytes := [10];
      } else if escaped == Some(114) {
        bytes := [13];
      } else if escaped == Some(116) {
        bytes := [9];
      } else if escaped == Some(117) {
        ok, bytes := ParseCodepoint();
      } else {
        SetError(MalformedJson);
        ok := false;
      }
    }

    /** One element of a string that is not its end. */
    method ReadElement() returns (ok: bool, bytes: seq<Byte>)
      requires Going() && rest != [] && rest[0] != QUOTE
      modifies this`offset, this`rest, this`error
      ensures Did(ScanItem(old(rest)), ok) && (ok ==> bytes == ScanItem(old(rest)).value)
    {
      hide ScanEscape, JsonProbe.Tracks;
      ok, bytes := true, [];
      var value := Get();
      if value.value < 32 {
        SetError(MalformedJson);
        ok := false;
      } else if value.value != BACKSLASH {
        bytes := [value.value];
      } else {
        ok, bytes := ParseEscape();
      }
    }

    /** The elements of a string up to its closing quote. */
    method ReadElements() returns (ok: bool, output: seq<Byte>)
      requires Going()
      modifies this`offset, this`rest, this`error
      ensures Did(ScanItems(old(rest), [], maxString), ok)
      ensures ok ==> output == ScanItems(old(rest), [], maxString).value
    {
      hide ScanItem, JsonProbe.Tracks;
      output := [];
      while true
        invariant Going() && ScanItems(rest, output, maxString) == ScanItems(old(rest), [], maxString)
        decreases |rest|
      {
        ItemIsShorter(rest);
        var value := Peek();
        if value.None? {
          SetError(MalformedJson);
          return false, output;
        }
        if value.value == QUOTE {
          var _ := Get();
          return true, output;
        }
        var bytes;
        ok, bytes := ReadElement();
        if !ok { return; }
        output := output + bytes;
        if |output| > maxString {
          SetError(StringTooLong);
          return false, output;
        }
      }
    }

    method ParseString() returns (ok: bool, output: seq<Byte>)
      requires Going()
      modifies this`offset, this`rest, this`error
      ensures Did(ScanString(old(rest), maxString), ok) && (ok ==> output == ScanString(old(rest), maxString).value)
      ensures ok ==> |rest| < |old(rest)|
    {
      ghost var whole := rest;
      StringIsShorter(whole, maxString);
      hide SkipSpace, ScanItems, JsonProbe.Tracks;
      output := [];
      SkipWhitespace();
      var open := Get();
      if open != Some(QUOTE) {
        SetError(MalformedJson);
        return false, output;
      }
      ok, output := ReadElements();
    }

    lemma StringIsShorter(s: seq<Byte>, max: nat)
      ensures ScanString(s, max).Good? ==> |ScanString(s, max).rest| < |s|
    {
    }

    lemma ItemIsShorter(s: seq<Byte>)
      ensures s != [] ==> |ScanItem(s).rest| < |s|
    {
    }

    // ---- numbers -------------------------------------------------------------------

    method PeekIsDigit() returns (digit: bool)
      requires Going()
      ensures digit == (rest != [] && IsDigit(rest[0]))
    {
      var value := Peek();
      digit := value.Some? && 48 <= value.value <= 57;
    }

    /** Digits onto the token, as long as there are any. */
    method TakeDigitsInto(token: seq<Byte>) returns (longer: seq<Byte>)
      requires Going()
      modifies this`offset, this`rest
      ensures Going() && rest == TakeDigits(old(rest)).1 && longer == token + TakeDigits(old(rest)).0
    {
      hide TakeDigits, JsonProbe.Tracks;
      ghost var whole := rest;
      longer := token;
      while true
        invariant Going()
        invariant longer + TakeDigits(rest).0 == token + TakeDigits(whole).0
        invariant TakeDigits(rest).1 == TakeDigits(whole).1
        decreases |rest|
      {
        DigitStep(rest);
        var digit := PeekIsDigit();
        if !digit {
          return;
        }
        longer := TakeOneDigit(longer);
      }
    }

    method TakeOneDigit(token: seq<Byte>) returns (longer: seq<Byte>)
      requires Going() && rest != []
      modifies this`offset, this`rest
      ensures Going() && rest == old(rest)[1..] && longer == token + [old(rest)[0]]
      ensures forall d: seq<Byte> :: longer + d == token + ([old(rest)[0]] + d)
    {
      var value := Get();
      longer := token + [value.value];
    }

    lemma DigitStep(s: seq<Byte>)
      ensures if s != [] && IsDigit(s[0])
              then TakeDigits(s) == ([s[0]] + TakeDigits(s[1..]).0, TakeDigits(s[1..]).1)
              else TakeDigits(s) == ([], s)
    {
    }

    /** The integer part. */
    method ParseWhole(token: seq<Byte>) returns (ok: bool, longer: seq<Byte>)
      requires Going()
      modifies this`offset, this`rest, this`error
      ensures Did(ScanWhole(old(rest)), ok) && (ok ==> longer == token + ScanWhole(old(rest)).value)
    {
      hide TakeDigits;
      longer := token;
      var value := Peek();
      var digit := PeekIsDigit();
      if value == Some(48) {
        var _ := Get();
        longer := longer + [48];
        digit := PeekIsDigit();
        if digit {
          SetError(MalformedJson);
          return false, longer;
        }
      } else if digit {
        TakesSome(rest);
        longer := TakeDigitsInto(longer);
      } else {
        SetError(MalformedJson);
        return false, longer;
      }
      ok := true;
    }

    lemma TakesSome(s: seq<Byte>)
      requires s != [] && IsDigit(s[0])
      ensures |TakeDigits(s).1| < |s|
    {
    }

    lemma TakesNone(s: seq<Byte>)
      ensures TakeDigits(s).0 == [] <==> s == [] || !IsDigit(s[0])
      ensures TakeDigits(s).0 == [] ==> TakeDigits(s).1 == s
    {
    }

    method ParseFraction(token: seq<Byte>) returns (ok: bool, longer: seq<Byte>)
      requires Going()
      modifies this`offset, this`rest, this`error
      ensures Did(ScanFraction(old(rest)), ok)
      ensures ok ==> longer == token + FractionPart(ScanFraction(old(rest)).value)
    {
      hide TakeDigits, JsonProbe.Tracks;
      longer := token;
      var value := Peek();
      if value != Some(46) {
        return true, longer;
      }
      var _ := Get();
      ghost var behind := rest;
      TakesNone(behind);
      var digit := PeekIsDigit();
      if !digit {
        SetError(MalformedJson);
        return false, longer;
      }
      longer := TakeDigitsInto(longer + [46]);
      Join(token, [46], TakeDigits(behind).0);
      ok := true;
    }

    method ParseSign(token: seq<Byte>) returns (longer: seq<Byte>)
      requires Going()
      modifies this`offset, this`rest
      ensures Going() && rest == TakeSign(old(rest)).1 && longer == token + SignPart(TakeSign(old(rest)).0)
    {
      longer := token;
      var sign := Peek();
      if sign == Some(43) || sign == Some(45) {
        var _ := Get();
        longer := longer + [sign.value];
      }
    }

    method ParseExponentPart(token: seq<Byte>) returns (ok: bool, longer: seq<Byte>)
      requires Going()
      modifies this`offset, this`rest, this`error
      ensures Did(ScanExponent(old(rest)), ok)
      ensures ok ==> longer == token + ExponentPart(ScanExponent(old(rest)).value)
    {
      hide TakeDigits, TakeSign, SignPart, JsonProbe.Tracks;
      longer := token;
      var value := Peek();
      if value == Some(101) || value == Some(69) {
        var _ := Get();
        ghost var behind := rest;
        longer := ParseSign(longer + [value.value]);
        ghost var sign := TakeSign(behind).0;
        TakesNone(rest);
        var digit := PeekIsDigit();
        if !digit {
          SetError(MalformedJson);
          return false, longer;
        }
        ghost var digits := TakeDigits(rest).0;
        longer := TakeDigitsInto(longer);
        ExponentJoins(token, Exponent(value.value, sign, digits));
      }
      ok := true;
    }

    lemma ExponentJoins(token: seq<Byte>, e: Exponent)
      ensures token + [e.letter] + SignPart(e.sign) + e.digits == token + e.Written()
    {
      Join(token, [e.letter], SignPart(e.sign));
      Join(token, [e.letter] + SignPart(e.sign), e.digits);
    }

    lemma NumberJoins(n: Number)
      ensures MinusPart(n.minus) + n.whole + FractionPart(n.fraction) + ExponentPart(n.exponent) == n.Written()
    {
    }

    /** The characters of a number. */
    method ReadNumberToken() returns (ok: bool, token: seq<Byte>)
      requires Going()
      modifies this`offset, this`rest, this`error
      ensures Did(ScanNumberText(old(rest)), ok)
      ensures ok ==> token == ScanNumberText(old(rest)).value.Written()
    {
      hide ScanWhole, ScanFraction, ScanExponent, FractionPart, ExponentPart, Number.Written, JsonProbe.Tracks;
      token := [];
      var minus := Peek();
      if minus == Some(45) {
        var _ := Get();
        token := [45];
      }
      assert token == MinusPart(minus == Some(45));
      ghost var whole := ScanWhole(rest);
      ok, token := ParseWhole(token);
      if !ok { return; }
      ghost var fraction := ScanFraction(rest);
      ok, token := ParseFraction(token);
      if !ok { return; }
      ghost var exponent := ScanExponent(rest);
      ok, token := ParseExponentPart(token);
      if !ok { return; }
      NumberJoins(Number(minus == Some(45), whole.value, fraction.value, exponent.value));
    }

    method ParseNumber() returns (ok: bool, output: real)
      requires Going()
      modifies this`offset, this`rest, this`error
      ensures Did(ScanNumber(old(rest), R().limits.fits), ok)
      ensures ok ==> output == R().convert(ScanNumber(old(rest), R().limits.fits).value)
      ensures ok ==> |rest| < |old(rest)|
    {
      ghost var start := rest;
      NumberIsShorter(start, R().limits.fits);
      hide SkipSpace, ScanNumberText, DecimalOf, Converted, Number.Written, JsonProbe.Tracks;
      output := 0.0;
      SkipWhitespace();
      var token;
      ok, token := ReadNumberToken();
      if !ok { return; }
      var decimal := ParseDecimalToken(token);
      var converted := Converted(decimal, toDouble);
      if converted.None? {
        SetError(MalformedJson);
        return false, output;
      }
      output := converted.value;
    }

    lemma NumberIsShorter(s: seq<Byte>, fits: Number -> bool)
      ensures ScanNumber(s, fits).Good? ==> |ScanNumber(s, fits).rest| < |s|
    {
    }

    // ---- values --------------------------------------------------------------------

    method ConsumeExactLiteral(literal: seq<Byte>) returns (ok: bool)
      requires Going()
      modifies this`offset, this`rest, this`error
      ensures Did(ScanExact(old(rest), literal), ok)
      ensures ok ==> |rest| + |literal| == |old(rest)|
    {
      for i := 0 to |literal|
        invariant Going() && |rest| + i == |old(rest)|
        invariant ScanExact(rest, literal[i..]) == ScanExact(old(rest), literal)
      {
        assert literal[i..][1..] == literal[i + 1..];
        var value := Get();
        if value != Some(literal[i]) {
          SetError(MalformedJson);
          return false;
        }
      }
      ok := true;
    }

    /** What matched is not given back when the rest does not. */
    method TryConsumeLiteral(literal: seq<Byte>) returns (ok: bool)
      requires Going()
      modifies this`offset, this`rest
      ensures Going() && (ok, rest) == MatchWord(SkipSpace(old(rest)), literal)
    {
      hide SkipSpace;
      SkipWhitespace();
      ghost var start := rest;
      for i := 0 to |literal|
        invariant Going()
        invariant MatchWord(rest, literal[i..]) == MatchWord(start, literal)
      {
        assert literal[i..][1..] == literal[i + 1..];
        var value := Peek();
        if value != Some(literal[i]) {
          return false;
        }
        var _ := Get();
      }
      ok := true;
    }

    method SkipValue(depth: nat) returns (ok: bool)
      requires Going()
      modifies this`offset, this`rest, this`error
      ensures Did(ScanValue(old(rest), depth, R().limits), ok)
      ensures ok ==> |rest| < |old(rest)|
      decreases |rest|, 1
    {
      hide ScanString, ScanNumber, SkipSpace, ScanMembers, ScanElements, Expect, ScanExact;
      NothingSkippedTwice(rest);
      ok := CheckDepth(depth);
      if !ok { return; }
      SkipWhitespace();
      var value := Peek();
      if value == Some(QUOTE) {
        var ignored;
        ok, ignored := ParseString();
      } else if value == Some(123) {
        ok := SkipObject(depth);
      } else if value == Some(91) {
        ok := SkipArray(depth);
      } else if value == Some(116) {
        ok := ConsumeExactLiteral(True.Written());
      } else if value == Some(102) {
        ok := ConsumeExactLiteral(False.Written());
      } else if value == Some(110) {
        ok := ConsumeExactLiteral(Null.Written());
      } else {
        var ignored;
        ok, ignored := ParseNumber();
      }
    }

    lemma NothingSkippedTwice(s: seq<Byte>)
      ensures SkipSpace(SkipSpace(s)) == SkipSpace(s) && |SkipSpace(s)| <= |s|
    {
    }

    /** The object branch of `skip_value`. */
    method SkipObject(depth: nat) returns (ok: bool)
      requires Going() && rest != [] && rest[0] == 123 && depth <= maxDepth
      modifies this`offset, this`rest, this`error
      ensures var s := old(rest)[1..];
              Did(if Expect(s, 125).Good? then Expect(s, 125) else ScanMembers(SkipSpace(s), depth, R().limits), ok)
      ensures ok ==> |rest| < |old(rest)|
      decreases |rest|, 0
    {
      hide ScanString, ScanValue, SkipSpace, Expect;
      var _ := Get();
      NothingSkippedTwice(rest);
      ExpectAfterSpace(rest, 125);
      ExpectAfterFailure(rest, 125);
      SkipWhitespace();
      ok := Consume(125);
      if ok { return; }
      NothingSkippedTwice(rest);
      ghost var members := ScanMembers(rest, depth, R().limits);
      while true
        invariant Going() && |rest| < |old(rest)| && ScanMembers(rest, depth, R().limits) == members
        decreases |rest|
      {
        var ignored;
        ok, ignored := ParseString();
        if !ok { return; }
        ok := ExpectMark(58);
        if !ok { return; }
        ok := SkipValue(depth + 1);
        if !ok { return; }
        ghost var behind := rest;
        ok := Consume(125);
        if ok { return; }
        ExpectAfterSpace(behind, 44);
        ExpectAfterFailure(behind, 125);
        ok := ExpectMark(44);
        if !ok { return; }
      }
    }

    /** Whether white space is skipped before or while a mark is expected is the same. */
    lemma ExpectAfterSpace(s: seq<Byte>, mark: Byte)
      ensures Expect(SkipSpace(s), mark) == Expect(s, mark)
    {
      NothingSkippedTwice(s);
      hide SkipSpace;
    }

    lemma ExpectAfterFailure(s: seq<Byte>, mark: Byte)
      ensures Expect(s, mark).Bad? ==> Expect(s, mark) == Bad(MalformedJson, SkipSpace(s))
    {
    }

    method SkipArray(depth: nat) returns (ok: bool)
      requires Going() && rest != [] && rest[0] == 91 && depth <= maxDepth
      modifies this`offset, this`rest, this`error
      ensures var s := old(rest)[1..];
              Did(if Expect(s, 93).Good? then Expect(s, 93) else ScanElements(SkipSpace(s), depth, R().limits), ok)
      ensures ok ==> |rest| < |old(rest)|
      decreases |rest|, 0
    {
      hide ScanValue, SkipSpace, Expect;
      var _ := Get();
      NothingSkippedTwice(rest);
      ExpectAfterSpace(rest, 93);
      ExpectAfterFailure(rest, 93);
      SkipWhitespace();
      ok := Consume(93);
      if ok { return; }
      NothingSkippedTwice(rest);
      ghost var elements := ScanElements(rest, depth, R().limits);
      while true
        invariant Going() && |rest| < |old(rest)| && ScanElements(rest, depth, R().limits) == elements
        decreases |rest|
      {
        ok := SkipValue(depth + 1);
        if !ok { return; }
        ghost var behind := rest;
        ok := Consume(93);
        if ok { return; }
        ExpectAfterSpace(behind, 44);
        ExpectAfterFailure(behind, 93);
        ok := ExpectMark(44);
        if !ok { return; }
      }
    }

    // ---- the recognised members ----------------------------------------------------

    method ParseRequiredString() returns (ok: bool, target: seq<Byte>)
      requires Going()
      modifies this`offset, this`rest, this`error
      ensures Did(ScanRequiredText(old(rest), maxString), ok)
      ensures ok ==> target == ScanRequiredText(old(rest), maxString).value
    {
      hide SkipSpace, ScanString, JsonProbe.Tracks;
      target := [];
      SkipWhitespace();
      var value := Peek();
      if value != Some(QUOTE) {
        SetError(MalformedJson);
        return false, target;
      }
      ok, target := ParseString();
    }

    method ParseOptionalString() returns (ok: bool, target: Option<seq<Byte>>)
      requires Going()
      modifies this`offset, this`rest, this`error
      ensures Did(ScanOptionalText(old(rest), maxString), ok)
      ensures ok ==> target == ScanOptionalText(old(rest), maxString).value
    {
      hide SkipSpace, MatchWord, ScanString, JsonProbe.Tracks;
      target := None;
      NothingSkippedTwice(rest);
      SkipWhitespace();
      ok := TryConsumeLiteral(Null.Written());
      if ok { return; }
      var value := Peek();
      if value != Some(QUOTE) {
        SetError(MalformedJson);
        return false, target;
      }
      var text;
      ok, text := ParseString();
      target := Some(text);
    }

    method ParseOptionalNumber() returns (ok: bool, target: Option<real>)
      requires Going()
      modifies this`offset, this`rest, this`error
      ensures Did(ScanOptionalLevel(old(rest), R()), ok)
      ensures ok ==> target == ScanOptionalLevel(old(rest), R()).value
    {
      hide SkipSpace, MatchWord, ScanNumber, JsonProbe.Tracks;
      target := None;
      NothingSkippedTwice(rest);
      SkipWhitespace();
      ok := TryConsumeLiteral(Null.Written());
      if ok { return; }
      var value;
      ok, value := ParseNumber();
      target := Some(value);
    }

    method ParseSampleRate() returns (ok: bool, rate: real)
      requires Going()
      modifies this`offset, this`rest, this`error
      ensures Did(ScanRate(old(rest), R()), ok) && (ok ==> rate == ScanRate(old(rest), R()).value)
    {
      hide ScanNumber, JsonProbe.Tracks, ReaderFor, JsonProbe.R;
      ok, rate := ParseNumber();
      if !ok { return; }
      if rate <= 0.0 {
        SetError(MalformedJson);
        ok := false;
      }
    }

    method ParseKey() returns (ok: bool, key: seq<Byte>)
      requires Going()
      modifies this`offset, this`rest, this`error
      ensures Did(ScanKey(old(rest), maxString), ok) && (ok ==> key == ScanKey(old(rest), maxString).value)
    {
      hide ScanString, Expect, JsonProbe.Tracks;
      ok, key := ParseString();
      if ok {
        ok := ExpectMark(58);
      }
    }

    /** The value of a metadata member, into the field its key names. */
    method ParseMetadataMember(key: seq<Byte>, metadata: Metadata, depth: nat) returns (ok: bool, after: Metadata)
      requires Going()
      modifies this`offset, this`rest, this`error
      ensures Did(ScanMetaValue(old(rest), key, metadata, depth, R()), ok)
      ensures ok ==> after == ScanMetaValue(old(rest), key, metadata, depth, R()).value
    {
      hide ScanOptionalText, ScanOptionalLevel, ScanValue, TextFieldOf, LevelFieldOf, JsonProbe.Tracks;
      after := metadata;
      var text, level := TextFieldOf(key), LevelFieldOf(key);
      if text.Some? {
        var value;
        ok, value := ParseOptionalString();
        after := WithText(metadata, text.value, value);
      } else if level.Some? {
        var value;
        ok, value := ParseOptionalNumber();
        after := WithLevel(metadata, level.value, value);
      } else {
        ok := SkipValue(depth + 1);
      }
    }

    method ParseMetadataObject(metadata: Metadata, depth: nat) returns (ok: bool, after: Metadata)
      requires Going()
      modifies this`offset, this`rest, this`error
      ensures Did(ScanMetaObject(old(rest), metadata, depth, R()), ok)
      ensures ok ==> after == ScanMetaObject(old(rest), metadata, depth, R()).value
    {
      hide ScanKey, ScanMetaValue, ScanMetaMembers, SkipSpace, Expect, JsonProbe.Tracks;
      after := metadata;
      ok := CheckDepth(depth);
      if !ok { return; }
      ok := ExpectMark(123);
      if !ok { return; }
      ExpectAfterSpace(rest, 125);
      ExpectAfterFailure(rest, 125);
      SkipWhitespace();
      ok := Consume(125);
      if ok { return; }
      ok, after := ParseMetadataMembers(metadata, depth);
    }

    method ParseMetadataMembers(metadata: Metadata, depth: nat) returns (ok: bool, after: Metadata)
      requires Going()
      modifies this`offset, this`rest, this`error
      ensures Did(ScanMetaMembers(old(rest), metadata, depth, R()), ok)
      ensures ok ==> after == ScanMetaMembers(old(rest), metadata, depth, R()).value
    {
      hide ScanKey, ScanMetaValue, Expect, JsonProbe.Tracks;
      after := metadata;
      ghost var members := ScanMetaMembers(rest, metadata, depth, R());
      while true
        invariant Going() && ScanMetaMembers(rest, after, depth, R()) == members
        decreases |rest|
      {
        MetaMemberIsShorter(rest, after, depth);
        var key;
        ok, key := ParseKey();
        if !ok { return; }
        ok, after := ParseMetadataMember(key, after, depth);
        if !ok { return; }
        ghost var behind := rest;
        ok := Consume(125);
        if ok { return; }
        ExpectAfterSpace(behind, 44);
        ExpectAfterFailure(behind, 125);
        ok := ExpectMark(44);
        if !ok { return; }
      }
    }

    lemma MetaMemberIsShorter(s: seq<Byte>, m: Metadata, depth: nat)
      ensures var key := ScanKey(s, maxString);
              key.Good? ==>
                && |key.rest| < |s|
                && var value := ScanMetaValue(key.rest, key.value, m, depth, R());
                   && |value.rest| <= |key.rest| && |Expect(value.rest, 44).rest| <= |value.rest|
    {
    }

    /** The value of a root member. */
    method ParseRootMember(key: seq<Byte>, metadata: Metadata, depth: nat) returns (ok: bool, after: Metadata)
      requires Going()
      modifies this`offset, this`rest, this`error
      ensures Did(ScanRootValue(old(rest), key, metadata, depth, R()), ok)
      ensures ok ==> after == ScanRootValue(old(rest), key, metadata, depth, R()).value
    {
      hide ScanRequiredText, ScanRate, ScanMetaObject, ScanValue, RootKeyOf, JsonProbe.Tracks;
      after := metadata;
      match RootKeyOf(key)
      case Version =>
        var value;
        ok, value := ParseRequiredString();
        after := metadata.(version := value);
      case Architecture =>
        var value;
        ok, value := ParseRequiredString();
        after := metadata.(architecture := value);
      case SampleRate =>
        var value;
        ok, value := ParseSampleRate();
        after := metadata.(rate := value, rateDeclared := true);
      case MetadataKey =>
        ok, after := ParseMetadataObject(metadata, depth + 1);
      case OtherKey =>
        ok := SkipValue(depth + 1);
    }

    method ParseRootMembers(metadata: Metadata, depth: nat) returns (ok: bool, after: Metadata)
      requires Going()
      modifies this`offset, this`rest, this`error
      ensures Did(ScanRootMembers(old(rest), metadata, depth, R()), ok)
      ensures ok ==> after == ScanRootMembers(old(rest), metadata, depth, R()).value
    {
      hide ScanKey, ScanRootValue, Expect, JsonProbe.Tracks;
      after := metadata;
      ghost var members := ScanRootMembers(rest, metadata, depth, R());
      while true
        invariant Going() && ScanRootMembers(rest, after, depth, R()) == members
        decreases |rest|
      {
        RootMemberIsShorter(rest, after, depth);
        var key;
        ok, key := ParseKey();
        if !ok { return; }
        ok, after := ParseRootMember(key, after, depth);
        if !ok { return; }
        ghost var behind := rest;
        ok := Consume(125);
        if ok { return; }
        ExpectAfterSpace(behind, 44);
        ExpectAfterFailure(behind, 125);
        ok := ExpectMark(44);
        if !ok { return; }
      }
    }

    lemma RootMemberIsShorter(s: seq<Byte>, m: Metadata, depth: nat)
      ensures var key := ScanKey(s, maxString);
              key.Good? ==>
                && |key.rest| < |s|
                && var value := ScanRootValue(key.rest, key.value, m, depth, R());
                   && |value.rest| <= |key.rest| && |Expect(value.rest, 44).rest| <= |value.rest|
    {
    }

    method ParseRootObject(depth: nat) returns (ok: bool, metadata: Metadata)
      requires Going()
      modifies this`offset, this`rest, this`error
      ensures Did(ScanRoot(old(rest), depth, R()), ok) && (ok ==> metadata == ScanRoot(old(rest), depth, R()).value)
    {
      hide ScanRootMembers, SkipSpace, Expect, JsonProbe.Tracks;
      metadata := EMPTY;
      ok := CheckDepth(depth);
      if !ok { return; }
      ExpectAfterSpace(rest, 125);
      ExpectAfterFailure(rest, 125);
      SkipWhitespace();
      ok := Consume(125);
      if ok { return; }
      ok, metadata := ParseRootMembers(metadata, depth);
    }

    /** The whole file: the metadata, or the first error. */
    method Parse() returns (ok: bool, metadata: Metadata)
      requires Going()
      modifies this`offset, this`rest, this`error
      ensures Did(ScanDocument(old(rest), R()), ok) && (ok ==> metadata == ScanDocument(old(rest), R()).value)
    {
      hide ScanRoot, SkipSpace, Expect, JsonProbe.Tracks;
      metadata := EMPTY;
      ExpectAfterSpace(rest, 123);
      ExpectAfterFailure(rest, 123);
      SkipWhitespace();
      ok := Consume(123);
      if !ok {
        SetError(MalformedJson);
        return;
      }
      ok, metadata := ParseRootObject(1);
      if !ok { return; }
      SkipWhitespace();
      var behind := Peek();
      if behind.Some? {
        SetError(MalformedJson);
        return false, metadata;
      }
      if |metadata.version| == 0 {
        SetError(MissingRequiredField);
        return false, metadata;
      }
      if |metadata.architecture| == 0 {
        SetError(MissingRequiredField);
        return false, metadata;
      }
    }
  }
}
