/** JSON text as a grammar that generates it (RFC 8259), with what each piece stands for. */
module JsonGrammar {
  import opened Options
  import opened Bytes

  const QUOTE: Byte := 34
  const BACKSLASH: Byte := 92

  predicate IsDigit(b: Byte) { 48 <= b <= 57 }

  predicate IsSpace(b: Byte) { b == 32 || b == 9 || b == 13 || b == 10 }

  /** Insignificant white space (section 2). */
  predicate IsWhitespace(w: seq<Byte>) { forall i :: 0 <= i < |w| ==> IsSpace(w[i]) }

  // ---- strings (section 7) ---------------------------------------------------------

  predicate IsHex(b: Byte) { IsDigit(b) || 97 <= b <= 102 || 65 <= b <= 70 }

  function HexValue(b: Byte): (v: nat)
    requires IsHex(b)
    ensures v < 16
  {
    if IsDigit(b) then b - 48 else if b >= 97 then b - 87 else b - 55
  }

  type Hex4 = (Byte, Byte, Byte, Byte)

  predicate AllHex(h: Hex4) { IsHex(h.0) && IsHex(h.1) && IsHex(h.2) && IsHex(h.3) }

  function CodeUnit(h: Hex4): (v: nat)
    requires AllHex(h)
    ensures v < 0x10000
  {
    ((HexValue(h.0) * 16 + HexValue(h.1)) * 16 + HexValue(h.2)) * 16 + HexValue(h.3)
  }

  predicate IsHigh(unit: nat) { 0xD800 <= unit <= 0xDBFF }

  predicate IsLow(unit: nat) { 0xDC00 <= unit <= 0xDFFF }

  /** The code point of a surrogate pair. */
  function Combined(high: nat, low: nat): (c: nat)
    requires IsHigh(high) && IsLow(low)
    ensures 0x10000 <= c <= 0x10FFFF
  {
    0x10000 + (high - 0xD800) * 0x400 + (low - 0xDC00)
  }

  /** The UTF-8 encoding of a code point (RFC 3629, section 3). */
  function Utf8(c: nat): (s: seq<Byte>)
    requires c <= 0x10FFFF
    ensures 1 <= |s| <= 4
  {
    if c <= 0x7F then [c]
    else if c <= 0x7FF then [0xC0 + c / 0x40, 0x80 + c % 0x40]
    else if c <= 0xFFFF then [0xE0 + c / 0x1000, 0x80 + c / 0x40 % 0x40, 0x80 + c % 0x40]
    else [0xF0 + c / 0x40000, 0x80 + c / 0x1000 % 0x40, 0x80 + c / 0x40 % 0x40, 0x80 + c % 0x40]
  }

  /** The byte a one-letter escape stands for, if it is one. */
  function Unescaped(letter: Byte): Option<Byte> {
    if letter == QUOTE || letter == BACKSLASH || letter == 47 then Some(letter)
    else if letter == 98 then Some(8)
    else if letter == 102 then Some(12)
    else if letter == 110 then Some(10)
    else if letter == 114 then Some(13)
    else if letter == 116 then Some(9)
    else None
  }

  /** One element of a string as it is written. */
  datatype Item = Plain(byte: Byte) | Letter(letter: Byte) | Unit(hex: Hex4) | Pair(high: Hex4, low: Hex4) {
    predicate Valid() {
      match this
      case Plain(b) => b >= 32 && b != QUOTE && b != BACKSLASH
      case Letter(l) => Unescaped(l).Some?
      case Unit(h) => AllHex(h) && !IsHigh(CodeUnit(h)) && !IsLow(CodeUnit(h))
      case Pair(h, l) => AllHex(h) && AllHex(l) && IsHigh(CodeUnit(h)) && IsLow(CodeUnit(l))
    }

    function Written(): seq<Byte> {
      match this
      case Plain(b) => [b]
      case Letter(l) => [BACKSLASH, l]
      case Unit(h) => [BACKSLASH, 117, h.0, h.1, h.2, h.3]
      case Pair(h, l) => [BACKSLASH, 117, h.0, h.1, h.2, h.3, BACKSLASH, 117, l.0, l.1, l.2, l.3]
    }

    /** The bytes it stands for. */
    function Meaning(): (s: seq<Byte>)
      requires Valid()
      ensures |s| >= 1
    {
      match this
      case Plain(b) => [b]
      case Letter(l) => [Unescaped(l).value]
      case Unit(h) => Utf8(CodeUnit(h))
      case Pair(h, l) => Utf8(Combined(CodeUnit(h), CodeUnit(l)))
    }
  }

  datatype Items = End | More(item: Item, next: Items) {
    predicate Valid() { More? ==> item.Valid() && next.Valid() }

    /** The elements and the closing quote. */
    function Written(): seq<Byte> { if End? then [QUOTE] else item.Written() + next.Written() }

    function Meaning(): seq<Byte>
      requires Valid()
    {
      if End? then [] else item.Meaning() + next.Meaning()
    }
  }

  function WrittenString(items: Items): seq<Byte> { [QUOTE] + items.Written() }

  // ---- numbers (section 6) ---------------------------------------------------------

  predicate AllDigits(s: seq<Byte>) { forall i :: 0 <= i < |s| ==> IsDigit(s[i]) }

  /** The exponent part: letter, optional sign and digits. */
  datatype Exponent = Exponent(letter: Byte, sign: Option<Byte>, digits: seq<Byte>) {
    predicate Valid() {
      (letter == 101 || letter == 69) && (sign.Some? ==> sign.value == 43 || sign.value == 45)
      && digits != [] && AllDigits(digits)
    }

    function Written(): seq<Byte> { [letter] + (if sign.Some? then [sign.value] else []) + digits }
  }

  datatype Number = Number(minus: bool, whole: seq<Byte>, fraction: Option<seq<Byte>>, exponent: Option<Exponent>) {
    predicate Valid() {
      && whole != [] && AllDigits(whole) && (whole[0] == 48 ==> |whole| == 1)
      && (fraction.Some? ==> fraction.value != [] && AllDigits(fraction.value))
      && (exponent.Some? ==> exponent.value.Valid())
    }

    function Written(): seq<Byte> {
      (if minus then [45] else []) + whole + (if fraction.Some? then [46] + fraction.value else [])
      + (if exponent.Some? then exponent.value.Written() else [])
    }

    /** Nothing behind the number continues it: the longest possible number has been taken. */
    predicate EndsBefore(rest: seq<Byte>) {
      rest != [] ==>
        && !IsDigit(rest[0])
        && (exponent.None? ==> rest[0] != 101 && rest[0] != 69)
        && (exponent.None? && fraction.None? ==> rest[0] != 46)
    }
  }

  // ---- values (sections 3 to 5) ----------------------------------------------------

  datatype Literal = True | False | Null {
    function Written(): seq<Byte> {
      match this
      case True => [116, 114, 117, 101]
      case False => [102, 97, 108, 115, 101]
      case Null => [110, 117, 108, 108]
    }
  }

  /** A value with the white space inside it. A member carries the white space before each of
      its tokens and behind its value; an empty object or array has its own. */
  datatype Json =
    | Text(items: Items)
    | Num(number: Number)
    | Word(literal: Literal)
    | Object(space: seq<Byte>, members: Members)
    | Array(space: seq<Byte>, elements: Elements)
  {
    predicate Valid() {
      match this
      case Text(items) => items.Valid()
      case Num(number) => number.Valid()
      case Word(_) => true
      case Object(space, members) => IsWhitespace(space) && (members.NoMembers? || space == []) && members.Valid()
      case Array(space, elements) => IsWhitespace(space) && (elements.NoElements? || space == []) && elements.Valid()
    }

    function Written(): seq<Byte> {
      match this
      case Text(items) => WrittenString(items)
      case Num(number) => number.Written()
      case Word(literal) => literal.Written()
      case Object(space, members) => [123] + (if members.NoMembers? then space + [125] else members.Written())
      case Array(space, elements) => [91] + (if elements.NoElements? then space + [93] else elements.Written())
    }

    /** How deep its objects and arrays nest. */
    function Depth(): (d: nat)
      ensures d >= 1
    {
      match this
      case Object(_, members) => 1 + members.Depth()
      case Array(_, elements) => 1 + elements.Depth()
      case _ => 1
    }

    /** No string is longer than `bytes`, and each number satisfies `fits`. */
    predicate Within(bytes: nat, fits: Number -> bool) {
      match this
      case Text(items) => items.Valid() && |items.Meaning()| <= bytes
      case Num(number) => fits(number)
      case Word(_) => true
      case Object(_, members) => members.Within(bytes, fits)
      case Array(_, elements) => elements.Within(bytes, fits)
    }

    predicate EndsBefore(rest: seq<Byte>) { Num? ==> number.EndsBefore(rest) }
  }

  datatype Members =
    | NoMembers
    | Member(space: seq<Byte>, key: Items, colon: seq<Byte>, before: seq<Byte>, value: Json, after: seq<Byte>, next: Members)
  {
    predicate Valid() {
      Member? ==>
        && IsWhitespace(space) && key.Valid() && IsWhitespace(colon) && IsWhitespace(before) && value.Valid()
        && IsWhitespace(after) && next.Valid()
    }

    /** The members and the closing brace. */
    function Written(): seq<Byte> {
      if NoMembers? then []
      else
        space + WrittenString(key) + colon + [58] + before + value.Written() + after
        + (if next.NoMembers? then [125] else [44] + next.Written())
    }

    /** Zero for an empty object, whose braces are the only nesting. */
    function Depth(): (d: nat)
      ensures Member? ==> d >= 1
    {
      if NoMembers? then 0 else if value.Depth() >= next.Depth() then value.Depth() else next.Depth()
    }

    predicate Within(bytes: nat, fits: Number -> bool) {
      Member? ==> key.Valid() && |key.Meaning()| <= bytes && value.Within(bytes, fits) && next.Within(bytes, fits)
    }
  }

  datatype Elements =
    | NoElements
    | Element(space: seq<Byte>, value: Json, after: seq<Byte>, next: Elements)
  {
    predicate Valid() { Element? ==> IsWhitespace(space) && value.Valid() && IsWhitespace(after) && next.Valid() }

    function Written(): seq<Byte> {
      if NoElements? then []
      else space + value.Written() + after + (if next.NoElements? then [93] else [44] + next.Written())
    }

    function Depth(): (d: nat)
      ensures Element? ==> d >= 1
    {
      if NoElements? then 0 else if value.Depth() >= next.Depth() then value.Depth() else next.Depth()
    }

    predicate Within(bytes: nat, fits: Number -> bool) {
      Element? ==> value.Within(bytes, fits) && next.Within(bytes, fits)
    }
  }
}
