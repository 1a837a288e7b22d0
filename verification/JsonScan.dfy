/** What the probe reads, as functions of the remaining input. Each returns the input behind
    what it has read, or the error and the input at the point where it is reported. */
module JsonScan {
  import opened Options
  import opened Bytes
  import opened JsonGrammar

  datatype Code = MalformedJson | NestingTooDeep | StringTooLong | MissingRequiredField

  datatype Scan<T> = Good(value: T, rest: seq<Byte>) | Bad(code: Code, rest: seq<Byte>)

  /** Limits, and which numbers can be represented. */
  datatype Limits = Limits(maxDepth: nat, maxString: nat, fits: Number -> bool)

  function SkipSpace(s: seq<Byte>): (r: seq<Byte>)
    ensures |r| <= |s| && (r != [] ==> !IsSpace(r[0]))
  {
    if s != [] && IsSpace(s[0]) then SkipSpace(s[1..]) else s
  }

  // ---- strings ---------------------------------------------------------------------

  /** What `count` more hexadecimal digits keep within four. */
  function Below(count: nat): nat {
    if count == 0 then 0x10000 else if count == 1 then 0x1000 else if count == 2 then 0x100 else if count == 3 then 16 else 1
  }

  /** Up to four hexadecimal digits. */
  function ScanHex(s: seq<Byte>, count: nat, value: nat): (r: Scan<nat>)
    ensures r.Good? ==> count <= |s| && (forall i :: 0 <= i < count ==> IsHex(s[i])) && r.rest == s[count..]
    ensures |r.rest| <= |s|
    ensures r.Good? && count <= 4 && value < Below(count) ==> r.value < 0x10000
  {
    if count == 0 then Good(value, s)
    else if s == [] then Bad(MalformedJson, s)
    else if !IsHex(s[0]) then Bad(MalformedJson, s[1..])
    else ScanHex(s[1..], count - 1, value * 16 + HexValue(s[0]))
  }

  /** Behind a high surrogate: the escape of a low one. */
  function ScanLow(s: seq<Byte>, high: nat): (r: Scan<seq<Byte>>)
    requires IsHigh(high)
    ensures |r.rest| <= |s|
  {
    if s == [] then Bad(MalformedJson, s)
    else if s[0] != BACKSLASH then Bad(MalformedJson, s[1..])
    else if |s| == 1 then Bad(MalformedJson, [])
    else if s[1] != 117 then Bad(MalformedJson, s[2..])
    else
      var low := ScanHex(s[2..], 4, 0);
      if low.Bad? then Bad(low.code, low.rest)
      else if !IsLow(low.value) then Bad(MalformedJson, low.rest)
      else Good(Utf8(Combined(high, low.value)), low.rest)
  }

  /** Behind the `u` of an escape: a code unit, or a surrogate pair. */
  function ScanUnicode(s: seq<Byte>): (r: Scan<seq<Byte>>)
    ensures |r.rest| <= |s|
  {
    var first := ScanHex(s, 4, 0);
    if first.Bad? then Bad(first.code, first.rest)
    else if IsHigh(first.value) then ScanLow(first.rest, first.value)
    else if IsLow(first.value) then Bad(MalformedJson, first.rest)
    else Good(Utf8(first.value), first.rest)
  }

  /** Behind a backslash. */
  function ScanEscape(s: seq<Byte>): (r: Scan<seq<Byte>>)
    ensures |r.rest| <= |s|
  {
    if s == [] then Bad(MalformedJson, s)
    else if Unescaped(s[0]).Some? then Good([Unescaped(s[0]).value], s[1..])
    else if s[0] == 117 then ScanUnicode(s[1..])
    else Bad(MalformedJson, s[1..])
  }

  /** One element of a string that does not start with a quote. */
  function ScanItem(s: seq<Byte>): (r: Scan<seq<Byte>>)
    requires s != []
    ensures |r.rest| < |s|
  {
    if s[0] < 32 then Bad(MalformedJson, s[1..])
    else if s[0] != BACKSLASH then Good([s[0]], s[1..])
    else ScanEscape(s[1..])
  }

  /** The elements of a string and its closing quote. */
  function ScanItems(s: seq<Byte>, out: seq<Byte>, max: nat): (r: Scan<seq<Byte>>)
    ensures |r.rest| <= |s| && (r.Good? ==> |r.rest| < |s|)
    decreases |s|
  {
    if s == [] then Bad(MalformedJson, s)
    else if s[0] == QUOTE then Good(out, s[1..])
    else
      var item := ScanItem(s);
      if item.Bad? then item
      else if |out + item.value| > max then Bad(StringTooLong, item.rest)
      else ScanItems(item.rest, out + item.value, max)
  }

  function ScanString(s: seq<Byte>, max: nat): (r: Scan<seq<Byte>>)
    ensures |r.rest| <= |s| && (r.Good? ==> |r.rest| < |s|)
  {
    var t := SkipSpace(s);
    if t == [] then Bad(MalformedJson, t)
    else if t[0] != QUOTE then Bad(MalformedJson, t[1..])
    else ScanItems(t[1..], [], max)
  }

  // ---- numbers ---------------------------------------------------------------------

  /** As many digits as there are. */
  function TakeDigits(s: seq<Byte>): (r: (seq<Byte>, seq<Byte>))
    ensures s == r.0 + r.1 && AllDigits(r.0) && (r.1 != [] ==> !IsDigit(r.1[0]))
    ensures s != [] && IsDigit(s[0]) ==> r.0 != []
  {
    if s == [] || !IsDigit(s[0]) then ([], s)
    else
      var (digits, rest) := TakeDigits(s[1..]);
      ([s[0]] + digits, rest)
  }

  /** The digits before the point. */
  function ScanWhole(s: seq<Byte>): (r: Scan<seq<Byte>>)
    ensures r.Good? ==> s == r.value + r.rest && r.value != [] && AllDigits(r.value)
    ensures |r.rest| <= |s|
  {
    if s == [] || !IsDigit(s[0]) then Bad(MalformedJson, s)
    else if s[0] == 48 then
      if |s| > 1 && IsDigit(s[1]) then Bad(MalformedJson, s[1..]) else Good([s[0]], s[1..])
    else Good(TakeDigits(s).0, TakeDigits(s).1)
  }

  function ScanFraction(s: seq<Byte>): (r: Scan<Option<seq<Byte>>>)
    ensures |r.rest| <= |s|
  {
    if s == [] || s[0] != 46 then Good(None, s)
    else
      var (digits, rest) := TakeDigits(s[1..]);
      if digits == [] then Bad(MalformedJson, rest) else Good(Some(digits), rest)
  }

  function TakeSign(s: seq<Byte>): (r: (Option<Byte>, seq<Byte>))
    ensures |r.1| <= |s|
  {
    if s != [] && (s[0] == 43 || s[0] == 45) then (Some(s[0]), s[1..]) else (None, s)
  }

  function ScanExponent(s: seq<Byte>): (r: Scan<Option<Exponent>>)
    ensures |r.rest| <= |s|
  {
    if s == [] || (s[0] != 101 && s[0] != 69) then Good(None, s)
    else
      var (sign, behind) := TakeSign(s[1..]);
      var (digits, rest) := TakeDigits(behind);
      if digits == [] then Bad(MalformedJson, rest) else Good(Some(Exponent(s[0], sign, digits)), rest)
  }

  /** The longest number. */
  function ScanNumberText(t: seq<Byte>): (r: Scan<Number>)
    ensures |r.rest| <= |t| && (r.Good? ==> |r.rest| < |t|)
  {
    var minus := t != [] && t[0] == 45;
    var whole := ScanWhole(if minus then t[1..] else t);
    if whole.Bad? then Bad(whole.code, whole.rest)
    else
      var fraction := ScanFraction(whole.rest);
      if fraction.Bad? then Bad(fraction.code, fraction.rest)
      else
        var exponent := ScanExponent(fraction.rest);
        if exponent.Bad? then Bad(exponent.code, exponent.rest)
        else Good(Number(minus, whole.value, fraction.value, exponent.value), exponent.rest)
  }

  /** A number that is representable. */
  function ScanNumber(s: seq<Byte>, fits: Number -> bool): (r: Scan<Number>)
    ensures |r.rest| <= |s| && (r.Good? ==> |r.rest| < |s|)
  {
    var r := ScanNumberText(SkipSpace(s));
    if r.Good? && !fits(r.value) then Bad(MalformedJson, r.rest) else r
  }

  // ---- values ----------------------------------------------------------------------

  /** Exactly these bytes; the first that differs is still read. */
  function ScanExact(s: seq<Byte>, expected: seq<Byte>): (r: Scan<()>)
    ensures |r.rest| <= |s| && (r.Good? ==> |r.rest| + |expected| == |s|)
  {
    if expected == [] then Good((), s)
    else if s == [] then Bad(MalformedJson, s)
    else if s[0] != expected[0] then Bad(MalformedJson, s[1..])
    else ScanExact(s[1..], expected[1..])
  }

  /** White space and then this byte, which is not read when it is another. */
  function Expect(s: seq<Byte>, expected: Byte): (r: Scan<()>)
    ensures |r.rest| <= |s| && (r.Good? ==> |r.rest| < |s|)
  {
    var t := SkipSpace(s);
    if t != [] && t[0] == expected then Good((), t[1..]) else Bad(MalformedJson, t)
  }

  /** Any value at nesting level `depth`. */
  function ScanValue(s: seq<Byte>, depth: nat, limits: Limits): (r: Scan<()>)
    ensures |r.rest| <= |s| && (r.Good? ==> |r.rest| < |s|)
    decreases |s|, 1
  {
    if depth > limits.maxDepth then Bad(NestingTooDeep, s)
    else
      var t := SkipSpace(s);
      if t != [] && t[0] == QUOTE then
        var r := ScanString(t, limits.maxString);
        if r.Good? then Good((), r.rest) else Bad(r.code, r.rest)
      else if t != [] && t[0] == 123 then
        if Expect(t[1..], 125).Good? then Expect(t[1..], 125) else ScanMembers(SkipSpace(t[1..]), depth, limits)
      else if t != [] && t[0] == 91 then
        if Expect(t[1..], 93).Good? then Expect(t[1..], 93) else ScanElements(SkipSpace(t[1..]), depth, limits)
      else if t != [] && t[0] == 116 then ScanExact(t, True.Written())
      else if t != [] && t[0] == 102 then ScanExact(t, False.Written())
      else if t != [] && t[0] == 110 then ScanExact(t, Null.Written())
      else
        var r := ScanNumber(t, limits.fits);
        if r.Good? then Good((), r.rest) else Bad(r.code, r.rest)
  }

  /** The members of an object at level `depth` that is not empty, and its closing brace. */
  function ScanMembers(s: seq<Byte>, depth: nat, limits: Limits): (r: Scan<()>)
    ensures |r.rest| <= |s| && (r.Good? ==> |r.rest| < |s|)
    decreases |s|, 0
  {
    var key := ScanString(s, limits.maxString);
    if key.Bad? then Bad(key.code, key.rest)
    else
      var colon := Expect(key.rest, 58);
      if colon.Bad? then colon
      else
        var value := ScanValue(colon.rest, depth + 1, limits);
        if value.Bad? then value
        else if Expect(value.rest, 125).Good? then Expect(value.rest, 125)
        else
          var comma := Expect(value.rest, 44);
          if comma.Bad? then comma else ScanMembers(comma.rest, depth, limits)
  }

  function ScanElements(s: seq<Byte>, depth: nat, limits: Limits): (r: Scan<()>)
    ensures |r.rest| <= |s| && (r.Good? ==> |r.rest| < |s|)
    decreases |s|, 2
  {
    var value := ScanValue(s, depth + 1, limits);
    if value.Bad? then value
    else if Expect(value.rest, 93).Good? then Expect(value.rest, 93)
    else
      var comma := Expect(value.rest, 44);
      if comma.Bad? then comma else ScanElements(comma.rest, depth, limits)
  }
}
