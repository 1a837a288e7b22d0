/** The printer's side: quoting byte strings, and escaping Unicode scalar values, both read
    back by the probe to what went in. */
module JsonQuote {
  import opened Options
  import opened Bytes
  import opened JsonGrammar
  import opened JsonScan
  import opened JsonStrings

  /** A lower-case hexadecimal digit. */
  function HexDigit(n: nat): (b: Byte)
    requires n < 16
    ensures IsHex(b) && HexValue(b) == n
  {
    if n < 10 then 48 + n else 87 + n
  }

  /** Four digits of a code unit. */
  function HexOf(unit: nat): (h: Hex4)
    requires unit < 0x10000
    ensures AllHex(h)
  {
    (HexDigit(unit / 0x1000), HexDigit(unit / 0x100 % 16), HexDigit(unit / 16 % 16), HexDigit(unit % 16))
  }

  lemma HexOfReadsBack(unit: nat)
    requires unit < 0x10000
    ensures CodeUnit(HexOf(unit)) == unit
  {
    var a, b, c, d := unit / 0x1000, unit / 0x100 % 16, unit / 16 % 16, unit % 16;
    assert unit / 0x100 == a * 16 + b;
    assert unit / 16 == unit / 0x100 * 16 + c;
  }

  // ---- quote -----------------------------------------------------------------------

  /** The letter of a short escape, if the byte has one. */
  function ShortEscape(b: Byte): (letter: Option<Byte>)
    ensures letter.Some? ==> Unescaped(letter.value) == Some(b)
  {
    if b == QUOTE || b == BACKSLASH then Some(b)
    else if b == 8 then Some(98)
    else if b == 12 then Some(102)
    else if b == 10 then Some(110)
    else if b == 13 then Some(114)
    else if b == 9 then Some(116)
    else None
  }

  function ItemOf(b: Byte): (item: Item)
    ensures item.Valid() && item.Meaning() == [b]
  {
    if ShortEscape(b).Some? then Letter(ShortEscape(b).value)
    else if b < 32 then
      HexOfReadsBack(b);
      Unit(HexOf(b))
    else Plain(b)
  }

  /** The hexadecimal digits, and of what is written for a byte, none is shorter. */
  lemma DigitsAreLowerCase(n: nat)
    requires n < 16
    ensures HexDigit(n) == "0123456789abcdef"[n] as int
  {
  }

  lemma ItemIsShortest(b: Byte, item: Item)
    requires item.Valid() && item.Meaning() == [b]
    ensures |ItemOf(b).Written()| <= |item.Written()|
  {
    if item.Letter? {
      assert Unescaped(item.letter) == Some(b);
    }
  }

  function ItemsOf(s: seq<Byte>): (items: Items)
    ensures items.Valid() && items.Meaning() == s
  {
    if s == [] then End else More(ItemOf(s[0]), ItemsOf(s[1..]))
  }

  function Quoted(s: seq<Byte>): seq<Byte> { WrittenString(ItemsOf(s)) }

  /** The elements written so far, without the closing quote. */
  function Body(s: seq<Byte>): seq<Byte> {
    if s == [] then [] else Body(s[..|s| - 1]) + ItemOf(s[|s| - 1]).Written()
  }

  lemma {:induction false} BodyFromFront(s: seq<Byte>)
    requires s != []
    ensures Body(s) == ItemOf(s[0]).Written() + Body(s[1..])
  {
    hide ItemOf, Item.Written;
    var last := ItemOf(s[|s| - 1]).Written();
    if |s| == 1 {
      assert Body(s[..0]) == [] && Body(s[1..]) == [];
      assert [] + last == last && last + [] == last;
    } else {
      BodyFromFront(s[..|s| - 1]);
      assert s[..|s| - 1][1..] == s[1..][..|s[1..]| - 1];
      Join(ItemOf(s[0]).Written(), Body(s[1..][..|s[1..]| - 1]), last);
    }
  }

  lemma {:induction false} BodyIsQuoted(s: seq<Byte>)
    ensures Quoted(s) == [QUOTE] + Body(s) + [QUOTE]
  {
    ItemsAreBody(s);
    Join([QUOTE], Body(s), [QUOTE]);
  }

  lemma {:induction false} ItemsAreBody(s: seq<Byte>)
    ensures ItemsOf(s).Written() == Body(s) + [QUOTE]
  {
    hide ItemOf, Item.Written;
    if s == [] {
      assert [] + [QUOTE] == [QUOTE];
    } else {
      ItemsAreBody(s[1..]);
      BodyFromFront(s);
      Join(ItemOf(s[0]).Written(), Body(s[1..]), [QUOTE]);
    }
  }

  /** One byte of the string, as the switch writes it. */
  method WriteCharacter(character: Byte) returns (written: seq<Byte>)
    ensures written == ItemOf(character).Written()
  {
    if character == QUOTE {
      written := [BACKSLASH, QUOTE];
    } else if character == BACKSLASH {
      written := [BACKSLASH, BACKSLASH];
    } else if character == 8 {
      written := [BACKSLASH, 98];
    } else if character == 12 {
      written := [BACKSLASH, 102];
    } else if character == 10 {
      written := [BACKSLASH, 110];
    } else if character == 13 {
      written := [BACKSLASH, 114];
    } else if character == 9 {
      written := [BACKSLASH, 116];
    } else if character < 32 {
      written := [BACKSLASH, 117, 48, 48, HexDigit(character / 16), HexDigit(character % 16)];
    } else {
      written := [character];
    }
  }

  /** `quote`: bytes into a JSON string, one at a time. */
  method Quote(value: seq<Byte>) returns (output: seq<Byte>)
    ensures output == Quoted(value)
  {
    hide ItemOf, Item.Written, Quoted;
    output := [QUOTE];
    for i := 0 to |value|
      invariant output == [QUOTE] + Body(value[..i])
    {
      var written := WriteCharacter(value[i]);
      assert value[..i + 1][..i] == value[..i];
      Join([QUOTE], Body(value[..i]), written);
      output := output + written;
    }
    assert value[..|value|] == value;
    BodyIsQuoted(value);
    output := output + [QUOTE];
  }

  /** What is quoted is read back as it was, and no further than its closing quote. */
  lemma QuoteReadsBack(value: seq<Byte>, rest: seq<Byte>, max: nat)
    requires |value| <= max
    ensures ScanString(Quoted(value) + rest, max) == Good(value, rest)
  {
    BareStringIsRead(ItemsOf(value), rest, max);
  }

  lemma BareStringIsRead(items: Items, rest: seq<Byte>, max: nat)
    requires items.Valid() && |items.Meaning()| <= max
    ensures ScanString(WrittenString(items) + rest, max) == Good(items.Meaning(), rest)
  {
    hide ScanString, WrittenString, Items.Meaning;
    StringIsRead([], items, rest, max);
    assert [] + WrittenString(items) == WrittenString(items);
  }

  /** So two strings are quoted alike only if they are equal, and no quoted string is a proper
      beginning of another. */
  lemma QuoteIsUnambiguous(a: seq<Byte>, b: seq<Byte>, x: seq<Byte>, y: seq<Byte>)
    requires Quoted(a) + x == Quoted(b) + y
    ensures a == b && x == y
  {
    var max := |a| + |b|;
    QuoteReadsBack(a, x, max);
    QuoteReadsBack(b, y, max);
    hide ScanString, Quoted;
  }

  // ---- Unicode escapes -------------------------------------------------------------

  predicate IsScalar(c: nat) { c <= 0x10FFFF && !IsHigh(c) && !IsLow(c) }

  /** A scalar value as one escape, or as the escapes of its surrogate pair. */
  function EscapeOf(c: nat): (item: Item)
    requires IsScalar(c)
  {
    if c < 0x10000 then Unit(HexOf(c))
    else Pair(HexOf(0xD800 + (c - 0x10000) / 0x400), HexOf(0xDC00 + (c - 0x10000) % 0x400))
  }

  lemma EscapeMeansUtf8(c: nat)
    requires IsScalar(c)
    ensures EscapeOf(c).Valid() && EscapeOf(c).Meaning() == Utf8(c)
  {
    hide HexOf, CodeUnit, Utf8;
    if c < 0x10000 {
      HexOfReadsBack(c);
    } else {
      var high, low := 0xD800 + (c - 0x10000) / 0x400, 0xDC00 + (c - 0x10000) % 0x400;
      HexOfReadsBack(high);
      HexOfReadsBack(low);
      assert Combined(high, low) == c;
    }
  }

  predicate AllScalars(text: seq<nat>) { forall i :: 0 <= i < |text| ==> IsScalar(text[i]) }

  function Utf8All(text: seq<nat>): seq<Byte>
    requires AllScalars(text)
  {
    if text == [] then [] else Utf8(text[0]) + Utf8All(text[1..])
  }

  function EscapesOf(text: seq<nat>): Items
    requires AllScalars(text)
  {
    if text == [] then End else More(EscapeOf(text[0]), EscapesOf(text[1..]))
  }

  lemma {:induction false} EscapesMeanUtf8(text: seq<nat>)
    requires AllScalars(text)
    ensures EscapesOf(text).Valid() && EscapesOf(text).Meaning() == Utf8All(text)
  {
    if text != [] {
      EscapeMeansUtf8(text[0]);
      EscapesMeanUtf8(text[1..]);
      hide EscapeOf, Utf8, Item.Meaning;
    }
  }

  /** Every text of Unicode scalar values, written entirely in escapes, is read as its UTF-8. */
  lemma EscapedTextReadsAsUtf8(text: seq<nat>, rest: seq<Byte>, max: nat)
    requires AllScalars(text) && |Utf8All(text)| <= max
    ensures ScanString(WrittenString(EscapesOf(text)) + rest, max) == Good(Utf8All(text), rest)
  {
    hide ScanString, WrittenString, EscapesOf, Utf8All;
    EscapesMeanUtf8(text);
    BareStringIsRead(EscapesOf(text), rest, max);
  }

  // ---- UTF-8 can be decoded --------------------------------------------------------

  /** The first code point of UTF-8 text, by its lead byte. */
  function DecodeUtf8(s: seq<int>): Option<(int, seq<int>)> {
    if s == [] then None
    else if s[0] < 0x80 then Some((s[0], s[1..]))
    else if 0xC0 <= s[0] < 0xE0 && |s| >= 2 && s[1] >= 0x80 then Some(((s[0] - 0xC0) * 0x40 + (s[1] - 0x80), s[2..]))
    else if 0xE0 <= s[0] < 0xF0 && |s| >= 3 && s[1] >= 0x80 && s[2] >= 0x80 then
      Some(((s[0] - 0xE0) * 0x1000 + (s[1] - 0x80) * 0x40 + (s[2] - 0x80), s[3..]))
    else if s[0] >= 0xF0 && |s| >= 4 && s[1] >= 0x80 && s[2] >= 0x80 && s[3] >= 0x80 then
      Some(((s[0] - 0xF0) * 0x40000 + (s[1] - 0x80) * 0x1000 + (s[2] - 0x80) * 0x40 + (s[3] - 0x80), s[4..]))
    else None
  }

  /** What `append_utf8` writes determines the code point and where it ends. */
  lemma Utf8ReadsBack(c: nat, rest: seq<Byte>)
    requires c <= 0x10FFFF
    ensures DecodeUtf8(Utf8(c) + rest) == Some((c, rest))
  {
    var s := Utf8(c) + rest;
    assert s[|Utf8(c)|..] == rest;
    if c <= 0x7F {
    } else if c <= 0x7FF {
      assert c == c / 0x40 * 0x40 + c % 0x40;
    } else if c <= 0xFFFF {
      assert c / 0x40 == c / 0x1000 * 0x40 + c / 0x40 % 0x40;
    } else {
      assert c / 0x40 == c / 0x1000 * 0x40 + c / 0x40 % 0x40;
      assert c / 0x1000 == c / 0x40000 * 0x40 + c / 0x1000 % 0x40;
    }
  }
}
