/** The probe reads exactly the strings of RFC 8259 section 7, and what they stand for. */
module JsonStrings {
  import opened Bytes
  import opened JsonGrammar
  import opened JsonScan

  // ---- white space -----------------------------------------------------------------

  lemma {:induction false} SpaceIsSkipped(w: seq<Byte>, s: seq<Byte>)
    requires IsWhitespace(w)
    ensures SkipSpace(w + s) == SkipSpace(s)
  {
    if w == [] {
      assert w + s == s;
    } else {
      assert (w + s)[1..] == w[1..] + s;
      SpaceIsSkipped(w[1..], s);
    }
  }

  lemma NothingToSkip(s: seq<Byte>)
    requires s == [] || !IsSpace(s[0])
    ensures SkipSpace(s) == s
  {
  }

  /** What was skipped. */
  function Skipped(s: seq<Byte>): (w: seq<Byte>)
    ensures IsWhitespace(w) && s == w + SkipSpace(s)
  {
    if s != [] && IsSpace(s[0]) then [s[0]] + Skipped(s[1..]) else []
  }

  lemma Join(a: seq<Byte>, b: seq<Byte>, c: seq<Byte>)
    ensures a + b + c == a + (b + c)
  {
  }

  lemma HeadTail(s: seq<Byte>)
    requires s != []
    ensures s == [s[0]] + s[1..]
  {
  }

  // ---- escapes ---------------------------------------------------------------------

  function Digits(h: Hex4): seq<Byte> { [h.0, h.1, h.2, h.3] }

  lemma HexIsRead(h: Hex4, rest: seq<Byte>)
    requires AllHex(h)
    ensures ScanHex(Digits(h) + rest, 4, 0) == Good(CodeUnit(h), rest)
  {
    var s := Digits(h) + rest;
    assert s[1..] == [h.1, h.2, h.3] + rest;
    assert s[1..][1..] == [h.2, h.3] + rest;
    assert s[1..][1..][1..] == [h.3] + rest;
    assert s[1..][1..][1..][1..] == rest;
    assert ScanHex(rest, 0, CodeUnit(h)) == Good(CodeUnit(h), rest);
    var a := HexValue(h.0);
    var b := a * 16 + HexValue(h.1);
    var c := b * 16 + HexValue(h.2);
    assert ScanHex([h.3] + rest, 1, c) == Good(CodeUnit(h), rest);
    assert ScanHex([h.2, h.3] + rest, 2, b) == Good(CodeUnit(h), rest);
    assert ScanHex([h.1, h.2, h.3] + rest, 3, a) == Good(CodeUnit(h), rest);
    assert a == 0 * 16 + HexValue(h.0);
  }

  lemma HexWasThere(s: seq<Byte>)
    requires ScanHex(s, 4, 0).Good?
    ensures |s| >= 4 && AllHex((s[0], s[1], s[2], s[3]))
    ensures s == Digits((s[0], s[1], s[2], s[3])) + s[4..]
    ensures ScanHex(s, 4, 0) == Good(CodeUnit((s[0], s[1], s[2], s[3])), s[4..])
  {
    hide ScanHex, CodeUnit, IsHex, Digits;
    FirstFour(s);
    HexIsRead((s[0], s[1], s[2], s[3]), s[4..]);
  }

  lemma FirstFour(s: seq<Byte>)
    requires |s| >= 4
    ensures s == Digits((s[0], s[1], s[2], s[3])) + s[4..]
  {
  }

  lemma UnitIsRead(h: Hex4, rest: seq<Byte>)
    requires Unit(h).Valid()
    ensures ScanUnicode(Digits(h) + rest) == Good(Utf8(CodeUnit(h)), rest)
  {
    hide ScanHex, CodeUnit, Utf8, AllHex, Digits;
    HexIsRead(h, rest);
  }

  lemma PairIsRead(h: Hex4, l: Hex4, rest: seq<Byte>)
    requires Pair(h, l).Valid()
    ensures ScanUnicode(Digits(h) + ([BACKSLASH, 117] + (Digits(l) + rest)))
            == Good(Utf8(Combined(CodeUnit(h), CodeUnit(l))), rest)
  {
    hide ScanHex, CodeUnit, Utf8, AllHex, Digits, Combined;
    var behind := [BACKSLASH, 117] + (Digits(l) + rest);
    HexIsRead(h, behind);
    assert behind[2..] == Digits(l) + rest;
    HexIsRead(l, rest);
  }

  lemma PairWritten(h: Hex4, l: Hex4, rest: seq<Byte>)
    ensures (Pair(h, l).Written() + rest)[1..][1..] == Digits(h) + ([BACKSLASH, 117] + (Digits(l) + rest))
    ensures (Pair(h, l).Written() + rest)[1..][0] == 117
  {
  }

  lemma ItemIsRead(item: Item, rest: seq<Byte>)
    requires item.Valid()
    ensures |item.Written()| >= 1 && item.Written()[0] != QUOTE
    ensures ScanItem(item.Written() + rest) == Good(item.Meaning(), rest)
  {
    hide ScanHex, CodeUnit, Utf8, AllHex, ScanUnicode;
    var s := item.Written() + rest;
    match item
    case Plain(_) => assert s[1..] == rest;
    case Letter(_) => assert s[1..][1..] == rest;
    case Unit(h) =>
      assert s[1..][1..] == Digits(h) + rest;
      UnitIsRead(h, rest);
    case Pair(h, l) =>
      PairWritten(h, l, rest);
      PairIsRead(h, l, rest);
      hide Digits;
  }

  /** Behind the backslash and the `u`. */
  lemma UnicodeWasThere(s: seq<Byte>) returns (item: Item)
    requires ScanUnicode(s).Good?
    ensures item.Valid() && [BACKSLASH, 117] + s == item.Written() + ScanUnicode(s).rest
    ensures item.Meaning() == ScanUnicode(s).value
  {
    HexWasThere(s);
    hide ScanHex, CodeUnit, Utf8, Combined;
    var h := (s[0], s[1], s[2], s[3]);
    var rest := s[4..];
    if IsHigh(CodeUnit(h)) {
      HexWasThere(rest[2..]);
      var l := (rest[2..][0], rest[2..][1], rest[2..][2], rest[2..][3]);
      item := Pair(h, l);
      assert rest == [BACKSLASH, 117] + (Digits(l) + rest[2..][4..]);
      assert [BACKSLASH, 117] + s == item.Written() + rest[2..][4..];
    } else {
      item := Unit(h);
      assert [BACKSLASH, 117] + s == item.Written() + rest;
    }
  }

  lemma ItemWasThere(s: seq<Byte>) returns (item: Item)
    requires s != [] && s[0] != QUOTE && ScanItem(s).Good?
    ensures item.Valid() && s == item.Written() + ScanItem(s).rest && item.Meaning() == ScanItem(s).value
  {
    if s[0] != BACKSLASH {
      item := Plain(s[0]);
    } else if Unescaped(s[1]).Some? {
      item := Letter(s[1]);
      assert s == [BACKSLASH, s[1]] + s[1..][1..];
    } else {
      item := UnicodeWasThere(s[1..][1..]);
      assert s == [BACKSLASH, 117] + s[1..][1..];
    }
    hide ScanUnicode;
  }

  // ---- whole strings ---------------------------------------------------------------

  /** A valid string is read to its closing quote when what it stands for is short enough, and
      is refused as too long when it is not. */
  lemma {:induction false} ItemsAreRead(items: Items, out: seq<Byte>, rest: seq<Byte>, max: nat)
    requires items.Valid() && |out| <= max
    ensures |out + items.Meaning()| <= max ==>
              ScanItems(items.Written() + rest, out, max) == Good(out + items.Meaning(), rest)
    ensures |out + items.Meaning()| > max ==> ScanItems(items.Written() + rest, out, max).Bad?
                                              && ScanItems(items.Written() + rest, out, max).code == StringTooLong
    decreases items
  {
    hide ScanItem, Item.Meaning, Item.Written;
    var s := items.Written() + rest;
    if items.End? {
      assert s[1..] == rest && out + [] == out;
    } else {
      var behind := items.next.Written() + rest;
      assert s == items.item.Written() + behind;
      ItemIsRead(items.item, behind);
      var longer := out + items.item.Meaning();
      if |longer| <= max {
        ItemsAreRead(items.next, longer, rest, max);
        assert longer + items.next.Meaning() == out + items.Meaning();
      }
    }
  }

  lemma {:induction false} ItemsWereThere(s: seq<Byte>, out: seq<Byte>, max: nat) returns (items: Items)
    requires ScanItems(s, out, max).Good? && |out| <= max
    ensures items.Valid() && s == items.Written() + ScanItems(s, out, max).rest
    ensures out + items.Meaning() == ScanItems(s, out, max).value && |out + items.Meaning()| <= max
    decreases |s|
  {
    hide ScanItem, Item.Meaning, Item.Written;
    if s[0] == QUOTE {
      items := End;
      HeadTail(s);
      assert out + [] == out;
    } else {
      var item := ItemWasThere(s);
      var next := ItemsWereThere(ScanItem(s).rest, out + ScanItem(s).value, max);
      items := More(item, next);
      Join(item.Written(), next.Written(), ScanItems(s, out, max).rest);
      Join(out, item.Meaning(), next.Meaning());
    }
  }

  /** The input starts with white space and a string of the grammar that stands for `value`. */
  ghost predicate StartsWithString(s: seq<Byte>, value: seq<Byte>, rest: seq<Byte>) {
    exists w, items :: IsString(s, w, items, value, rest)
  }

  ghost predicate IsString(s: seq<Byte>, w: seq<Byte>, items: Items, value: seq<Byte>, rest: seq<Byte>) {
    IsWhitespace(w) && items.Valid() && items.Meaning() == value && s == w + WrittenString(items) + rest
  }

  lemma StringIsRead(w: seq<Byte>, items: Items, rest: seq<Byte>, max: nat)
    requires IsWhitespace(w) && items.Valid()
    ensures |items.Meaning()| <= max ==>
              ScanString(w + WrittenString(items) + rest, max) == Good(items.Meaning(), rest)
    ensures |items.Meaning()| > max ==>
              ScanString(w + WrittenString(items) + rest, max).Bad?
              && ScanString(w + WrittenString(items) + rest, max).code == StringTooLong
  {
    hide ScanItems, Items.Written, Items.Meaning, SkipSpace;
    var t := WrittenString(items) + rest;
    Join(w, WrittenString(items), rest);
    SpaceIsSkipped(w, t);
    NothingToSkip(t);
    Join([QUOTE], items.Written(), rest);
    assert t[1..] == items.Written() + rest;
    ItemsAreRead(items, [], rest, max);
    assert [] + items.Meaning() == items.Meaning();
  }

  /** Exactly the strings that are not too long are read, to what they stand for and no further. */
  lemma StringsAreExact(s: seq<Byte>, value: seq<Byte>, rest: seq<Byte>, max: nat)
    ensures ScanString(s, max) == Good(value, rest) <==> StartsWithString(s, value, rest) && |value| <= max
  {
    hide ScanString, WrittenString, Items.Meaning;
    if ScanString(s, max) == Good(value, rest) {
      var w, items := StringWasThere(s, max);
      assert IsString(s, w, items, value, rest);
    }
    if StartsWithString(s, value, rest) && |value| <= max {
      var w, items :| IsString(s, w, items, value, rest);
      StringIsRead(w, items, rest, max);
    }
  }

  lemma StringWasThere(s: seq<Byte>, max: nat) returns (w: seq<Byte>, items: Items)
    requires ScanString(s, max).Good?
    ensures IsWhitespace(w) && items.Valid() && items.Meaning() == ScanString(s, max).value && |items.Meaning()| <= max
    ensures s == w + WrittenString(items) + ScanString(s, max).rest
  {
    hide ScanItems, Items.Written, Items.Meaning;
    var t := SkipSpace(s);
    w := Skipped(s);
    items := ItemsWereThere(t[1..], [], max);
    assert [] + items.Meaning() == items.Meaning();
    var rest := ScanString(s, max).rest;
    HeadTail(t);
    Join([QUOTE], items.Written(), rest);
    Join(w, WrittenString(items), rest);
  }
}
