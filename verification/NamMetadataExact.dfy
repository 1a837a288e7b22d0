/** Exactly what the metadata reader accepts, for every input: typed documents of the grammar
    within the limits, with up to three stray letters of `null` in front of an optional value,
    because the probe for that literal does not give back what it has read. */
module NamMetadataExact {
  import opened Options
  import opened Bytes
  import opened JsonGrammar
  import opened JsonScan
  import opened JsonStrings
  import opened JsonNumbers
  import opened JsonExactness
  import opened NamMetadata
  import opened NamMetadataFold
  import NamMetadataOrder

  // ---- the text that is accepted ---------------------------------------------------

  /** What stands behind a colon. */
  datatype Loose =
    | Straight(before: seq<Byte>, json: Json)
    | Strayed(before: seq<Byte>, letters: nat, gap: seq<Byte>, json: Json)
    | MetaObject(before: seq<Byte>, space: seq<Byte>, entries: Entries)
  {
    /** Its text, followed by `rest`. */
    function Then(rest: seq<Byte>): seq<Byte> {
      match this
      case Straight(before, json) => before + (json.Written() + rest)
      case Strayed(before, letters, gap, json) => before + (Letters(letters) + (gap + (json.Written() + rest)))
      case MetaObject(before, space, entries) =>
        before + ([123] + if entries.NoEntries? then space + ([125] + rest) else entries.Then(rest))
    }
  }

  /** The members of an object, up to its closing brace. */
  datatype Entries =
    | NoEntries
    | Entry(space: seq<Byte>, key: Items, colon: seq<Byte>, value: Loose, after: seq<Byte>, next: Entries)
  {
    function Then(rest: seq<Byte>): seq<Byte> {
      if NoEntries? then rest
      else
        var behind := after + if next.NoEntries? then [125] + rest else [44] + next.Then(rest);
        space + (WrittenString(key) + (colon + ([58] + value.Then(behind))))
    }

    /** What follows the value. */
    function Behind(rest: seq<Byte>): seq<Byte>
      requires Entry?
    {
      after + if next.NoEntries? then [125] + rest else [44] + next.Then(rest)
    }
  }

  /** A beginning of `null`. */
  function Letters(n: nat): seq<Byte> { if n <= 4 then Null.Written()[..n] else Null.Written() }

  predicate TextOk(t: Json, reader: Reader) {
    t.Text? && t.items.Valid() && |t.items.Meaning()| <= reader.limits.maxString
  }

  predicate NumberOk(t: Json, reader: Reader) { t.Num? && t.number.Valid() && reader.limits.fits(t.number) }

  /** What may stand for a key of the metadata object. */
  predicate MetaValueOk(key: seq<Byte>, v: Loose, depth: nat, reader: Reader) {
    && IsWhitespace(v.before) && !v.MetaObject?
    && (v.Strayed? ==> 1 <= v.letters <= 3 && IsWhitespace(v.gap))
    && if TextFieldOf(key).Some? then
         (v.json == Word(Null) && v.Straight?) || (TextOk(v.json, reader) && (v.Strayed? ==> v.gap == []))
       else if LevelFieldOf(key).Some? then (v.json == Word(Null) && v.Straight?) || NumberOk(v.json, reader)
       else v.Straight? && Allowed(v.json, depth + 1, reader.limits)
  }

  predicate KeyOk(e: Entries, reader: Reader)
    requires e.Entry?
  {
    && IsWhitespace(e.space) && IsWhitespace(e.colon) && IsWhitespace(e.after)
    && e.key.Valid() && |e.key.Meaning()| <= reader.limits.maxString
  }

  predicate MetaOk(e: Entries, depth: nat, reader: Reader) {
    e.Entry? ==>
      KeyOk(e, reader) && MetaValueOk(e.key.Meaning(), e.value, depth, reader) && MetaOk(e.next, depth, reader)
  }

  /** What may stand for a key of the root object. */
  predicate RootValueOk(key: seq<Byte>, v: Loose, depth: nat, reader: Reader) {
    && IsWhitespace(v.before)
    && match RootKeyOf(key)
       case Version => v.Straight? && TextOk(v.json, reader)
       case Architecture => v.Straight? && TextOk(v.json, reader)
       case SampleRate => v.Straight? && NumberOk(v.json, reader) && reader.convert(v.json.number) > 0.0
       case MetadataKey =>
         v.MetaObject? && IsWhitespace(v.space) && depth + 1 <= reader.limits.maxDepth && MetaOk(v.entries, depth + 1, reader)
       case OtherKey => v.Straight? && Allowed(v.json, depth + 1, reader.limits)
  }

  predicate RootOk(e: Entries, depth: nat, reader: Reader) {
    e.Entry? ==>
      KeyOk(e, reader) && RootValueOk(e.key.Meaning(), e.value, depth, reader) && RootOk(e.next, depth, reader)
  }

  // ---- what it says ----------------------------------------------------------------

  function MetaFactOf(key: seq<Byte>, v: Loose, depth: nat, reader: Reader): Fact
    requires MetaValueOk(key, v, depth, reader)
  {
    MetaFact(key, v.json)
  }

  function EntryFacts(e: Entries, depth: nat, reader: Reader): seq<Fact>
    requires MetaOk(e, depth, reader)
  {
    if e.NoEntries? then []
    else [MetaFactOf(e.key.Meaning(), e.value, depth, reader)] + EntryFacts(e.next, depth, reader)
  }

  function RootFactOf(key: seq<Byte>, v: Loose, depth: nat, reader: Reader): Fact
    requires RootValueOk(key, v, depth, reader)
  {
    if v.MetaObject? then Fact(key, ObjectFact(EntryFacts(v.entries, depth + 1, reader))) else RootFact(key, v.json)
  }

  function RootEntryFacts(e: Entries, depth: nat, reader: Reader): seq<Fact>
    requires RootOk(e, depth, reader)
  {
    if e.NoEntries? then []
    else [RootFactOf(e.key.Meaning(), e.value, depth, reader)] + RootEntryFacts(e.next, depth, reader)
  }

  // ---- it is read ------------------------------------------------------------------

  lemma {:induction false} PrefixMatches(word: seq<Byte>, k: nat, t: seq<Byte>)
    requires k < |word| && (t == [] || t[0] != word[k])
    ensures MatchWord(word[..k] + t, word) == (false, t)
    decreases k
  {
    if k == 0 {
      assert word[..0] + t == t;
    } else {
      assert (word[..k] + t)[1..] == word[1..][..k - 1] + t;
      PrefixMatches(word[1..], k - 1, t);
    }
  }

  lemma LettersMatch(w: seq<Byte>, k: nat, t: seq<Byte>)
    requires IsWhitespace(w) && 1 <= k <= 3 && t != [] && t[0] != 117 && t[0] != 108
    ensures MatchWord(SkipSpace(w + (Letters(k) + t)), Null.Written()) == (false, t)
  {
    PrefixMatches(Null.Written(), k, t);
    assert Letters(k)[0] == 110;
    SpaceIsSkipped(w, Letters(k) + t);
    NothingToSkip(Letters(k) + t);
    hide SkipSpace, MatchWord;
  }

  lemma StrayedTextIsRead(v: Loose, rest: seq<Byte>, reader: Reader)
    requires v.Strayed? && IsWhitespace(v.before) && 1 <= v.letters <= 3 && v.gap == [] && TextOk(v.json, reader)
    ensures ScanOptionalText(v.Then(rest), reader.limits.maxString) == Good(Some(v.json.items.Meaning()), rest)
  {
    hide ScanString, WrittenString, Items.Meaning, Items.Valid, MatchWord, SkipSpace, Letters;
    var t := WrittenString(v.json.items) + rest;
    assert [] + t == t && [] + WrittenString(v.json.items) == WrittenString(v.json.items);
    FirstByte(v.json, rest);
    LettersMatch(v.before, v.letters, t);
    StringIsRead([], v.json.items, rest, reader.limits.maxString);
  }

  lemma GapStarts(w: seq<Byte>, t: seq<Byte>)
    requires IsWhitespace(w) && t != [] && (t[0] == 45 || IsDigit(t[0]))
    ensures w + t != [] && (w + t)[0] != 117 && (w + t)[0] != 108 && (w + t)[0] != 110
  {
    if w != [] { assert IsSpace(w[0]); }
  }

  lemma StrayedLevelIsRead(v: Loose, rest: seq<Byte>, reader: Reader)
    requires v.Strayed? && IsWhitespace(v.before) && 1 <= v.letters <= 3 && IsWhitespace(v.gap) && NumberOk(v.json, reader)
    requires v.json.EndsBefore(rest)
    ensures ScanOptionalLevel(v.Then(rest), reader) == Good(Some(reader.convert(v.json.number)), rest)
  {
    hide ScanNumber, Number.Written, Number.Valid, MatchWord, SkipSpace, Letters;
    var t := v.json.number.Written() + rest;
    FirstByte(v.json, rest);
    GapStarts(v.gap, t);
    LettersMatch(v.before, v.letters, v.gap + t);
    Join(v.gap, v.json.number.Written(), rest);
    NumberIsRead(v.gap, v.json.number, rest, reader.limits.fits);
  }

  lemma MetaLooseIsRead(key: seq<Byte>, v: Loose, rest: seq<Byte>, m: Metadata, depth: nat, reader: Reader)
    requires MetaValueOk(key, v, depth, reader) && v.json.EndsBefore(rest)
    ensures ScanMetaValue(v.Then(rest), key, m, depth, reader)
            == Good(MetaStep(m, MetaFactOf(key, v, depth, reader), reader), rest)
  {
    hide ScanOptionalText, ScanOptionalLevel, ScanValue, Items.Meaning, Number.Valid, Items.Valid, TextFieldOf, LevelFieldOf,
         Json.EndsBefore, Allowed;
    if TextFieldOf(key).Some? {
      if v.Strayed? { StrayedTextIsRead(v, rest, reader); }
      else { OptionalTextIsRead(v.before, v.json, rest, reader.limits.maxString); }
    } else if LevelFieldOf(key).Some? {
      if v.Strayed? { StrayedLevelIsRead(v, rest, reader); } else { OptionalLevelIsRead(v.before, v.json, rest, reader); }
    } else {
      AnyValueIsRead(v.before, v.json, rest, depth + 1, reader.limits);
    }
  }

  /** The key and its colon. */
  lemma EntryKeyIsRead(e: Entries, rest: seq<Byte>, reader: Reader)
    requires e.Entry? && KeyOk(e, reader)
    ensures ScanKey(e.Then(rest), reader.limits.maxString) == Good(e.key.Meaning(), e.value.Then(e.Behind(rest)))
  {
    var value := e.value.Then(e.Behind(rest));
    hide ScanString, WrittenString, Expect, Items.Meaning, Loose.Then, Entries.Behind;
    Join(e.space, WrittenString(e.key), e.colon + ([58] + value));
    StringIsRead(e.space, e.key, e.colon + ([58] + value), reader.limits.maxString);
    ExpectedIsRead(e.colon, 58, value);
  }

  /** What follows a value: the closing brace, or a comma and the next member. */
  lemma EntryEnds(e: Entries, rest: seq<Byte>, t: Json)
    requires e.Entry? && IsWhitespace(e.after)
    ensures t.EndsBefore(e.Behind(rest))
    ensures e.next.NoEntries? ==> Expect(e.Behind(rest), 125) == Good((), rest)
    ensures e.next.Entry? ==> Expect(e.Behind(rest), 125).Bad? && Expect(e.Behind(rest), 44) == Good((), e.next.Then(rest))
  {
    hide Expect, Json.EndsBefore, Entries.Then;
    if e.next.NoEntries? {
      PunctuationEnds(t, e.after, 125, rest);
      ExpectedIsRead(e.after, 125, rest);
    } else {
      PunctuationEnds(t, e.after, 44, e.next.Then(rest));
      ExpectedIsRead(e.after, 44, e.next.Then(rest));
    }
  }

  lemma {:induction false} MetaEntriesAreRead(e: Entries, rest: seq<Byte>, m: Metadata, depth: nat, reader: Reader)
    requires e.Entry? && MetaOk(e, depth, reader)
    ensures ScanMetaMembers(e.Then(rest), m, depth, reader) == Good(FoldMeta(EntryFacts(e, depth, reader), m, reader), rest)
    decreases e
  {
    hide ScanKey, ScanMetaValue, Expect, Entries.Then, Entries.Behind, Loose.Then, MetaStep, MetaFactOf, MetaValueOk, KeyOk;
    EntryKeyIsRead(e, rest, reader);
    EntryValueIs(e, depth, reader);
    EntryEnds(e, rest, e.value.json);
    MetaLooseIsRead(e.key.Meaning(), e.value, e.Behind(rest), m, depth, reader);
    if e.next.Entry? {
      MetaEntriesAreRead(e.next, rest, MetaStep(m, MetaFactOf(e.key.Meaning(), e.value, depth, reader), reader), depth, reader);
    }
  }

  lemma EntryValueIs(e: Entries, depth: nat, reader: Reader)
    requires e.Entry? && MetaOk(e, depth, reader)
    ensures !e.value.MetaObject? && e.key.Valid() && IsWhitespace(e.after)
  {
  }

  lemma MetaLooseObjectIsRead(v: Loose, rest: seq<Byte>, m: Metadata, depth: nat, reader: Reader)
    requires v.MetaObject? && IsWhitespace(v.before) && IsWhitespace(v.space) && depth <= reader.limits.maxDepth
    requires MetaOk(v.entries, depth, reader)
    ensures ScanMetaObject(v.Then(rest), m, depth, reader) == Good(FoldMeta(EntryFacts(v.entries, depth, reader), m, reader), rest)
  {
    hide Expect, ScanMetaMembers, Entries.Then, SkipSpace, FoldMeta;
    if v.entries.NoEntries? {
      ExpectedIsRead(v.before, 123, v.space + ([125] + rest));
      ExpectedIsRead(v.space, 125, rest);
      NoEntryFacts(m, depth, reader);
    } else {
      var body := v.entries.Then(rest);
      ExpectedIsRead(v.before, 123, body);
      EntriesStart(v.entries, rest);
      MetaEntriesAreRead(v.entries, rest, m, depth, reader);
      SkippedIs(body);
      SpaceBeforeMetaMembers(Skipped(body), SkipSpace(body), m, depth, reader);
    }
  }

  lemma NoEntryFacts(m: Metadata, depth: nat, reader: Reader)
    ensures FoldMeta(EntryFacts(NoEntries, depth, reader), m, reader) == m
  {
  }

  lemma EntriesStart(e: Entries, rest: seq<Byte>)
    requires e.Entry? && IsWhitespace(e.space)
    ensures Expect(e.Then(rest), 125).Bad?
  {
    var s := WrittenString(e.key) + (e.colon + ([58] + e.value.Then(e.Behind(rest))));
    assert s[0] == QUOTE;
    hide Expect;
    OtherIsNotExpected(e.space, s, 125);
  }

  lemma RootLooseIsRead(key: seq<Byte>, v: Loose, rest: seq<Byte>, m: Metadata, depth: nat, reader: Reader)
    requires RootValueOk(key, v, depth, reader) && (!v.MetaObject? ==> v.json.EndsBefore(rest))
    ensures ScanRootValue(v.Then(rest), key, m, depth, reader)
            == Good(RootStep(m, RootFactOf(key, v, depth, reader), reader), rest)
  {
    hide ScanRequiredText, ScanRate, ScanMetaObject, ScanValue, Items.Meaning, Number.Valid, Items.Valid, RootKeyOf,
         Number.EndsBefore, EntryFacts, FoldMeta, Number.Written, Allowed, MetaOk;
    match RootKeyOf(key)
    case Version => RequiredTextIsRead(v.before, v.json.items, rest, reader.limits.maxString);
    case Architecture => RequiredTextIsRead(v.before, v.json.items, rest, reader.limits.maxString);
    case SampleRate => RateIsRead(v.before, v.json.number, rest, reader);
    case MetadataKey => MetaLooseObjectIsRead(v, rest, m, depth + 1, reader);
    case OtherKey => AnyValueIsRead(v.before, v.json, rest, depth + 1, reader.limits);
  }

  lemma {:induction false} RootEntriesAreRead(e: Entries, rest: seq<Byte>, m: Metadata, depth: nat, reader: Reader)
    requires e.Entry? && RootOk(e, depth, reader)
    ensures ScanRootMembers(e.Then(rest), m, depth, reader) == Good(FoldRoot(RootEntryFacts(e, depth, reader), m, reader), rest)
    decreases e
  {
    hide ScanKey, ScanRootValue, Expect, Entries.Then, Entries.Behind, Loose.Then, RootStep, RootFactOf, RootValueOk;
    EntryKeyIsRead(e, rest, reader);
    EntryEnds(e, rest, if e.value.MetaObject? then Word(Null) else e.value.json);
    RootLooseIsRead(e.key.Meaning(), e.value, e.Behind(rest), m, depth, reader);
    if e.next.Entry? {
      RootEntriesAreRead(e.next, rest, RootStep(m, RootFactOf(e.key.Meaning(), e.value, depth, reader), reader), depth, reader);
    }
  }

  // ---- and nothing else is ---------------------------------------------------------

  lemma {:induction false} WordWasMatched(s: seq<Byte>, word: seq<Byte>) returns (k: nat)
    ensures k <= |word| && s == word[..k] + MatchWord(s, word).1
    ensures MatchWord(s, word).0 <==> k == |word|
    ensures k < |word| ==> MatchWord(s, word).1 == [] || MatchWord(s, word).1[0] != word[k]
    decreases |word|
  {
    if word != [] && s != [] && s[0] == word[0] {
      var n := WordWasMatched(s[1..], word[1..]);
      k := n + 1;
      assert word[..k] == [word[0]] + word[1..][..n];
      HeadTail(s);
      Join([word[0]], word[1..][..n], MatchWord(s, word).1);
    } else {
      k := 0;
      assert word[..0] + s == s;
    }
  }

  /** The probe for `null`: it was there, or some letters of it were. */
  lemma NullWasThere(s: seq<Byte>) returns (k: nat)
    ensures k <= 4 && s == Skipped(s) + (Letters(k) + MatchWord(SkipSpace(s), Null.Written()).1)
    ensures MatchWord(SkipSpace(s), Null.Written()).0 <==> k == 4
    ensures k == 0 ==> MatchWord(SkipSpace(s), Null.Written()).1 == SkipSpace(s)
  {
    SkippedIs(s);
    k := WordWasMatched(SkipSpace(s), Null.Written());
    hide SkipSpace, MatchWord;
    if k == 0 { assert Letters(0) + MatchWord(SkipSpace(s), Null.Written()).1 == MatchWord(SkipSpace(s), Null.Written()).1; }
  }

  lemma OptionalTextWasThere(s: seq<Byte>, key: seq<Byte>, depth: nat, reader: Reader) returns (v: Loose)
    requires TextFieldOf(key).Some? && ScanOptionalText(s, reader.limits.maxString).Good?
    ensures var r := ScanOptionalText(s, reader.limits.maxString);
            && MetaValueOk(key, v, depth, reader) && s == v.Then(r.rest)
            && r.value == (if v.json.Text? then Some(v.json.items.Meaning()) else None)
  {
    var r := ScanOptionalText(s, reader.limits.maxString);
    var k := NullWasThere(s);
    hide MatchWord, ScanString, SkipSpace, Items.Meaning, WrittenString, TextFieldOf, Skipped;
    if k == 4 {
      v := Straight(Skipped(s), Word(Null));
      hide Literal.Written;
    } else {
      var t := MatchWord(SkipSpace(s), Null.Written()).1;
      var w, items := StringWasThere(t, reader.limits.maxString);
      QuoteInFront(t, w, items, r.rest);
      v := TextBehindLetters(Skipped(s), k, items, r.rest, key, depth, reader);
    }
  }

  /** A text behind no letters, or behind up to three. */
  lemma TextBehindLetters(w: seq<Byte>, k: nat, items: Items, rest: seq<Byte>, key: seq<Byte>, depth: nat, reader: Reader)
      returns (v: Loose)
    requires IsWhitespace(w) && k <= 3 && TextFieldOf(key).Some?
    requires items.Valid() && |items.Meaning()| <= reader.limits.maxString
    ensures MetaValueOk(key, v, depth, reader) && v.Then(rest) == w + (Letters(k) + (WrittenString(items) + rest))
    ensures v.json == Text(items)
  {
    hide WrittenString, Items.Meaning, TextFieldOf;
    var t := WrittenString(items) + rest;
    assert [] + t == t && Letters(0) == [];
    hide Letters;
    v := if k == 0 then Straight(w, Text(items)) else Strayed(w, k, [], Text(items));
  }

  /** A string that starts at once. */
  lemma QuoteInFront(t: seq<Byte>, w: seq<Byte>, items: Items, rest: seq<Byte>)
    requires t != [] && t[0] == QUOTE && IsWhitespace(w) && t == w + WrittenString(items) + rest
    ensures t == WrittenString(items) + rest
  {
    hide WrittenString;
    assert [] + WrittenString(items) == WrittenString(items);
  }

  lemma OptionalLevelWasThere(s: seq<Byte>, key: seq<Byte>, depth: nat, reader: Reader) returns (v: Loose)
    requires TextFieldOf(key).None? && LevelFieldOf(key).Some? && ScanOptionalLevel(s, reader).Good?
    ensures var r := ScanOptionalLevel(s, reader);
            && MetaValueOk(key, v, depth, reader) && s == v.Then(r.rest)
            && r.value == (if v.json.Num? then Some(reader.convert(v.json.number)) else None)
  {
    var r := ScanOptionalLevel(s, reader);
    var k := NullWasThere(s);
    hide MatchWord, ScanNumber, SkipSpace, Number.Written, Number.Valid, TextFieldOf, LevelFieldOf, Skipped;
    if k == 4 {
      v := Straight(Skipped(s), Word(Null));
      hide Literal.Written;
    } else {
      var t := MatchWord(SkipSpace(s), Null.Written()).1;
      NumberWasThere(t, reader.limits.fits);
      var number := ScanNumber(t, reader.limits.fits).value;
      Join(Skipped(t), number.Written(), r.rest);
      hide Letters;
      if k == 0 {
        NothingSkipped(s);
        SkippedIs(s);
        v := Straight(Skipped(s), Num(number));
        assert [] + (number.Written() + r.rest) == number.Written() + r.rest;
      } else {
        v := Strayed(Skipped(s), k, Skipped(t), Num(number));
      }
    }
  }

  lemma AnyValueWasThere(s: seq<Byte>, depth: nat, limits: Limits) returns (v: Loose)
    requires ScanValue(s, depth, limits).Good?
    ensures v.Straight? && IsWhitespace(v.before) && Allowed(v.json, depth, limits)
    ensures s == v.Then(ScanValue(s, depth, limits).rest)
  {
    hide ScanValue, SkipSpace, Allowed;
    var t := ValueWasThere(s, depth, limits);
    SkippedIs(s);
    v := Straight(Skipped(s), t);
  }

  lemma MetaLooseWasThere(s: seq<Byte>, key: seq<Byte>, m: Metadata, depth: nat, reader: Reader) returns (v: Loose)
    requires ScanMetaValue(s, key, m, depth, reader).Good?
    ensures var r := ScanMetaValue(s, key, m, depth, reader);
            && MetaValueOk(key, v, depth, reader) && s == v.Then(r.rest)
            && r.value == MetaStep(m, MetaFactOf(key, v, depth, reader), reader)
  {
    hide ScanOptionalText, ScanOptionalLevel, ScanValue, Loose.Then, TextFieldOf, LevelFieldOf, Items.Meaning, Allowed;
    if TextFieldOf(key).Some? {
      v := OptionalTextWasThere(s, key, depth, reader);
    } else if LevelFieldOf(key).Some? {
      v := OptionalLevelWasThere(s, key, depth, reader);
    } else {
      v := AnyValueWasThere(s, depth + 1, reader.limits);
      assert v.json.Valid() by { AllowedIsValid(v.json, depth + 1, reader.limits); }
    }
  }

  lemma AllowedIsValid(t: Json, depth: nat, limits: Limits)
    requires Allowed(t, depth, limits)
    ensures t.Valid()
  {
  }

  /** The parts of a key and its colon. */
  lemma EntryKeyWasThere(s: seq<Byte>, max: nat) returns (space: seq<Byte>, key: Items, colon: seq<Byte>)
    requires ScanKey(s, max).Good?
    ensures IsWhitespace(space) && IsWhitespace(colon) && key.Valid() && |key.Meaning()| <= max
    ensures key.Meaning() == ScanKey(s, max).value
    ensures s == space + (WrittenString(key) + (colon + ([58] + ScanKey(s, max).rest)))
  {
    hide ScanString, Expect, WrittenString, Items.Meaning;
    space, key := StringWasThere(s, max);
    var behind := ScanString(s, max).rest;
    ExpectedWasThere(behind, 58);
    colon := Skipped(behind);
    Join(space, WrittenString(key), behind);
  }

  lemma {:induction false} MetaEntriesWereThere(s: seq<Byte>, m: Metadata, depth: nat, reader: Reader) returns (e: Entries)
    requires ScanMetaMembers(s, m, depth, reader).Good?
    ensures var r := ScanMetaMembers(s, m, depth, reader);
            && e.Entry? && MetaOk(e, depth, reader) && s == e.Then(r.rest)
            && r.value == FoldMeta(EntryFacts(e, depth, reader), m, reader)
    decreases |s|
  {
    hide ScanKey, ScanMetaValue, Expect, Loose.Then, MetaStep, MetaFactOf, MetaValueOk, WrittenString, Items.Meaning;
    var key := ScanKey(s, reader.limits.maxString);
    var space, items, colon := EntryKeyWasThere(s, reader.limits.maxString);
    var value := ScanMetaValue(key.rest, key.value, m, depth, reader);
    var v := MetaLooseWasThere(key.rest, key.value, m, depth, reader);
    if Expect(value.rest, 125).Good? {
      ExpectedWasThere(value.rest, 125);
      e := Entry(space, items, colon, v, Skipped(value.rest), NoEntries);
      OneFact(e, m, depth, reader);
    } else {
      ExpectedWasThere(value.rest, 44);
      var next := MetaEntriesWereThere(Expect(value.rest, 44).rest, value.value, depth, reader);
      e := Entry(space, items, colon, v, Skipped(value.rest), next);
      FirstFact(e, m, depth, reader);
    }
  }

  lemma OneFact(e: Entries, m: Metadata, depth: nat, reader: Reader)
    requires e.Entry? && e.next.NoEntries? && MetaOk(e, depth, reader)
    ensures FoldMeta(EntryFacts(e, depth, reader), m, reader)
            == MetaStep(m, MetaFactOf(e.key.Meaning(), e.value, depth, reader), reader)
  {
    hide MetaStep, MetaFactOf, MetaValueOk, Items.Meaning;
    assert EntryFacts(e, depth, reader)[1..] == [];
  }

  lemma FirstFact(e: Entries, m: Metadata, depth: nat, reader: Reader)
    requires e.Entry? && MetaOk(e, depth, reader)
    ensures FoldMeta(EntryFacts(e, depth, reader), m, reader)
            == FoldMeta(EntryFacts(e.next, depth, reader),
                        MetaStep(m, MetaFactOf(e.key.Meaning(), e.value, depth, reader), reader), reader)
  {
    hide MetaStep, MetaFactOf, MetaValueOk, Items.Meaning;
    assert EntryFacts(e, depth, reader)[1..] == EntryFacts(e.next, depth, reader);
  }

  lemma MetaLooseObjectWasThere(s: seq<Byte>, m: Metadata, depth: nat, reader: Reader) returns (v: Loose)
    requires ScanMetaObject(s, m, depth, reader).Good?
    ensures var r := ScanMetaObject(s, m, depth, reader);
            && v.MetaObject? && IsWhitespace(v.before) && IsWhitespace(v.space) && depth <= reader.limits.maxDepth
            && MetaOk(v.entries, depth, reader) && s == v.Then(r.rest)
            && r.value == FoldMeta(EntryFacts(v.entries, depth, reader), m, reader)
  {
    hide Expect, ScanMetaMembers, Entries.Then, SkipSpace, FoldMeta, MetaOk;
    ExpectedWasThere(s, 123);
    var body := Expect(s, 123).rest;
    if Expect(body, 125).Good? {
      ExpectedWasThere(body, 125);
      v := MetaObject(Skipped(s), Skipped(body), NoEntries);
      NoEntryFacts(m, depth, reader);
      assert MetaOk(NoEntries, depth, reader) by { NothingIsOk(depth, reader); }
    } else {
      SkippedIs(body);
      SpaceBeforeMetaMembers(Skipped(body), SkipSpace(body), m, depth, reader);
      var e := MetaEntriesWereThere(body, m, depth, reader);
      v := MetaObject(Skipped(s), [], e);
    }
  }

  lemma NothingIsOk(depth: nat, reader: Reader)
    ensures MetaOk(NoEntries, depth, reader)
  {
  }

  lemma RequiredTextWasThere(s: seq<Byte>, reader: Reader) returns (v: Loose)
    requires ScanRequiredText(s, reader.limits.maxString).Good?
    ensures var r := ScanRequiredText(s, reader.limits.maxString);
            v.Straight? && IsWhitespace(v.before) && TextOk(v.json, reader) && s == v.Then(r.rest) && r.value == v.json.items.Meaning()
  {
    hide ScanString, SkipSpace, Items.Meaning, WrittenString;
    var t := SkipSpace(s);
    var w, items := StringWasThere(t, reader.limits.maxString);
    QuoteInFront(t, w, items, ScanString(t, reader.limits.maxString).rest);
    SkippedIs(s);
    v := Straight(Skipped(s), Text(items));
  }

  lemma RateWasThere(s: seq<Byte>, reader: Reader) returns (v: Loose)
    requires ScanRate(s, reader).Good?
    ensures var r := ScanRate(s, reader);
            && v.Straight? && IsWhitespace(v.before) && NumberOk(v.json, reader) && s == v.Then(r.rest)
            && r.value == reader.convert(v.json.number) > 0.0
  {
    hide ScanNumber, Number.Written, Number.Valid;
    NumberWasThere(s, reader.limits.fits);
    var number := ScanNumber(s, reader.limits.fits);
    Join(Skipped(s), number.value.Written(), number.rest);
    v := Straight(Skipped(s), Num(number.value));
  }

  lemma RootLooseWasThere(s: seq<Byte>, key: seq<Byte>, m: Metadata, depth: nat, reader: Reader) returns (v: Loose)
    requires ScanRootValue(s, key, m, depth, reader).Good?
    ensures var r := ScanRootValue(s, key, m, depth, reader);
            && RootValueOk(key, v, depth, reader) && s == v.Then(r.rest)
            && r.value == RootStep(m, RootFactOf(key, v, depth, reader), reader)
  {
    hide ScanRequiredText, ScanRate, ScanMetaObject, ScanValue, Loose.Then, Items.Meaning, Allowed, FoldMeta, EntryFacts,
         RootKeyOf, MetaOk;
    match RootKeyOf(key)
    case Version => v := RequiredTextWasThere(s, reader);
    case Architecture => v := RequiredTextWasThere(s, reader);
    case SampleRate => v := RateWasThere(s, reader);
    case MetadataKey => v := MetaLooseObjectWasThere(s, m, depth + 1, reader);
    case OtherKey =>
      v := AnyValueWasThere(s, depth + 1, reader.limits);
      AllowedIsValid(v.json, depth + 1, reader.limits);
  }

  lemma {:induction false} RootEntriesWereThere(s: seq<Byte>, m: Metadata, depth: nat, reader: Reader) returns (e: Entries)
    requires ScanRootMembers(s, m, depth, reader).Good?
    ensures var r := ScanRootMembers(s, m, depth, reader);
            && e.Entry? && RootOk(e, depth, reader) && s == e.Then(r.rest)
            && r.value == FoldRoot(RootEntryFacts(e, depth, reader), m, reader)
    decreases |s|
  {
    hide ScanKey, ScanRootValue, Expect, Loose.Then, RootStep, RootFactOf, RootValueOk, WrittenString, Items.Meaning;
    var key := ScanKey(s, reader.limits.maxString);
    var space, items, colon := EntryKeyWasThere(s, reader.limits.maxString);
    var value := ScanRootValue(key.rest, key.value, m, depth, reader);
    var v := RootLooseWasThere(key.rest, key.value, m, depth, reader);
    if Expect(value.rest, 125).Good? {
      ExpectedWasThere(value.rest, 125);
      e := Entry(space, items, colon, v, Skipped(value.rest), NoEntries);
      OneRootFact(e, m, depth, reader);
    } else {
      ExpectedWasThere(value.rest, 44);
      var next := RootEntriesWereThere(Expect(value.rest, 44).rest, value.value, depth, reader);
      e := Entry(space, items, colon, v, Skipped(value.rest), next);
      FirstOfRoot(e, m, depth, reader);
    }
  }

  lemma OneRootFact(e: Entries, m: Metadata, depth: nat, reader: Reader)
    requires e.Entry? && e.next.NoEntries? && RootOk(e, depth, reader)
    ensures FoldRoot(RootEntryFacts(e, depth, reader), m, reader)
            == RootStep(m, RootFactOf(e.key.Meaning(), e.value, depth, reader), reader)
  {
    hide RootStep, RootFactOf, RootValueOk, Items.Meaning;
    assert RootEntryFacts(e, depth, reader)[1..] == [];
  }

  lemma FirstOfRoot(e: Entries, m: Metadata, depth: nat, reader: Reader)
    requires e.Entry? && RootOk(e, depth, reader)
    ensures FoldRoot(RootEntryFacts(e, depth, reader), m, reader)
            == FoldRoot(RootEntryFacts(e.next, depth, reader),
                        RootStep(m, RootFactOf(e.key.Meaning(), e.value, depth, reader), reader), reader)
  {
    hide RootStep, RootFactOf, RootValueOk, Items.Meaning;
    assert RootEntryFacts(e, depth, reader)[1..] == RootEntryFacts(e.next, depth, reader);
  }

  // ---- whole documents -------------------------------------------------------------

  /** White space, a brace, the members to the closing brace, and white space. */
  predicate IsDocument(s: seq<Byte>, before: seq<Byte>, e: Entries, behind: seq<Byte>, reader: Reader) {
    && IsWhitespace(before) && IsWhitespace(behind) && reader.limits.maxDepth >= 1
    && e.Entry? && RootOk(e, 1, reader) && s == before + ([123] + e.Then(behind))
  }

  /** The root members, whose first one has any white space in front. */
  lemma RootWasThere(s: seq<Byte>, reader: Reader) returns (before: seq<Byte>, e: Entries, behind: seq<Byte>)
    requires ScanDocument(s, reader).Good?
    ensures IsDocument(s, before, e, behind, reader)
    ensures ScanDocument(s, reader) == Result(RootEntryFacts(e, 1, reader), reader)
  {
    hide Expect, ScanRootMembers, Entries.Then, SkipSpace, FoldRoot, RootOk;
    ExpectedWasThere(s, 123);
    before := Skipped(s);
    var body := Expect(s, 123).rest;
    SkippedIs(body);
    SpaceBeforeRootMembers(Skipped(body), SkipSpace(body), EMPTY, 1, reader);
    e := RootEntriesWereThere(body, EMPTY, 1, reader);
    behind := ScanRootMembers(body, EMPTY, 1, reader).rest;
    SkippedIs(behind);
    assert Skipped(behind) + [] == behind;
  }

  lemma RootIsAccepted(s: seq<Byte>, before: seq<Byte>, e: Entries, behind: seq<Byte>, reader: Reader)
    requires IsDocument(s, before, e, behind, reader)
    ensures ScanDocument(s, reader) == Result(RootEntryFacts(e, 1, reader), reader)
  {
    var body := e.Then(behind);
    ExpectedIsRead(before, 123, body);
    EntriesStart(e, behind);
    RootEntriesAreRead(e, behind, EMPTY, 1, reader);
    SkippedIs(body);
    SpaceBeforeRootMembers(Skipped(body), SkipSpace(body), EMPTY, 1, reader);
    SpaceIsSkipped(behind, []);
    assert behind + [] == behind && SkipSpace([]) == [];
    hide Expect, ScanRootMembers, Entries.Then, SkipSpace, FoldRoot, RootOk;
  }

  /** The reader accepts exactly these documents, if they give a version and an architecture,
      and returns the fold of what they say; for every input. */
  lemma DocumentsAreExact(s: seq<Byte>, m: Metadata, reader: Reader)
    ensures ScanDocument(s, reader) == Good(m, []) <==>
              exists before, e, behind ::
                && IsDocument(s, before, e, behind, reader)
                && m == FoldRoot(RootEntryFacts(e, 1, reader), EMPTY, reader) && m.version != [] && m.architecture != []
  {
    hide ScanDocument, FoldRoot, RootEntryFacts;
    if ScanDocument(s, reader) == Good(m, []) {
      var before, e, behind := RootWasThere(s, reader);
    }
    if before, e, behind :|
         && IsDocument(s, before, e, behind, reader)
         && m == FoldRoot(RootEntryFacts(e, 1, reader), EMPTY, reader) && m.version != [] && m.architecture != [] {
      RootIsAccepted(s, before, e, behind, reader);
    }
  }

  /** Such a document without a version or an architecture is reported as that. */
  lemma MissingFieldIsReported(s: seq<Byte>, before: seq<Byte>, e: Entries, behind: seq<Byte>, reader: Reader)
    requires IsDocument(s, before, e, behind, reader)
    requires var m := FoldRoot(RootEntryFacts(e, 1, reader), EMPTY, reader); m.version == [] || m.architecture == []
    ensures ScanDocument(s, reader) == Bad(MissingRequiredField, [])
  {
    hide ScanDocument, FoldRoot, RootEntryFacts;
    RootIsAccepted(s, before, e, behind, reader);
  }

  lemma {:induction false} EntriesEndWithBrace(e: Entries, rest: seq<Byte>) returns (body: seq<Byte>)
    requires e.Entry?
    ensures e.Then(rest) == body + ([125] + rest)
    decreases e
  {
    var front: seq<Byte>;
    var tail: seq<Byte>;
    if e.next.NoEntries? {
      front, tail := e.after, [];
    } else {
      tail := EntriesEndWithBrace(e.next, rest);
      front := e.after + [44];
      Join(e.after, [44], tail + ([125] + rest));
    }
    assert e.Behind(rest) == (front + tail) + ([125] + rest);
    var value := LooseEnds(e.value, front + tail, [125] + rest);
    hide WrittenString, Loose.Then, Entries.Behind;
    body := e.space + (WrittenString(e.key) + (e.colon + ([58] + value)));
    assert e.space + (WrittenString(e.key) + (e.colon + ([58] + (value + ([125] + rest))))) == body + ([125] + rest);
  }

  lemma LooseEnds(v: Loose, a: seq<Byte>, b: seq<Byte>) returns (body: seq<Byte>)
    ensures v.Then(a + b) == body + b
    decreases v
  {
    match v
    case Straight(before, json) =>
      hide Json.Written;
      body := before + (json.Written() + a);
    case Strayed(before, letters, gap, json) =>
      hide Json.Written, Letters;
      body := before + (Letters(letters) + (gap + (json.Written() + a)));
    case MetaObject(before, space, entries) =>
      if entries.NoEntries? {
        body := before + ([123] + (space + ([125] + a)));
      } else {
        var inner := EntriesEndWithBrace(entries, a + b);
        hide Entries.Then;
        body := before + ([123] + (inner + ([125] + a)));
      }
  }

  lemma {:induction false} RateStaysPositive(e: Entries, m: Metadata, depth: nat, reader: Reader)
    requires RootOk(e, depth, reader) && m.rate > 0.0
    ensures FoldRoot(RootEntryFacts(e, depth, reader), m, reader).rate > 0.0
    decreases e
  {
    if e.Entry? {
      var next := RootStep(m, RootFactOf(e.key.Meaning(), e.value, depth, reader), reader);
      StepKeepsRatePositive(e.key.Meaning(), e.value, m, depth, reader);
      FirstOfRoot(e, m, depth, reader);
      hide RootStep, RootFactOf, RootValueOk, Items.Meaning, FoldRoot, RootEntryFacts;
      RateStaysPositive(e.next, next, depth, reader);
    } else {
      assert RootEntryFacts(e, depth, reader) == [];
    }
  }

  lemma StepKeepsRatePositive(key: seq<Byte>, v: Loose, m: Metadata, depth: nat, reader: Reader)
    requires RootValueOk(key, v, depth, reader) && m.rate > 0.0
    ensures RootStep(m, RootFactOf(key, v, depth, reader), reader).rate > 0.0
  {
    hide RootKeyOf, FoldMeta, EntryFacts, Items.Meaning, MetaOk, Allowed;
    if v.MetaObject? {
      NamMetadataOrder.FoldMetaTouches(EntryFacts(v.entries, depth + 1, reader), m, m.version, m.architecture, m.rate,
                                       m.rateDeclared, reader);
    }
  }

  /** What success means, whatever the bytes: white space, one part from a brace to a brace, and
      white space, with nothing left; and a version, an architecture and a positive rate. */
  lemma SuccessMeans(s: seq<Byte>, reader: Reader) returns (before: seq<Byte>, part: seq<Byte>, behind: seq<Byte>)
    requires ScanDocument(s, reader).Good?
    ensures s == before + part + behind && IsWhitespace(before) && IsWhitespace(behind)
    ensures |part| >= 2 && part[0] == 123 && part[|part| - 1] == 125
    ensures var r := ScanDocument(s, reader);
            r.rest == [] && r.value.version != [] && r.value.architecture != [] && r.value.rate > 0.0
  {
    var e: Entries;
    before, e, behind := RootWasThere(s, reader);
    RateStaysPositive(e, EMPTY, 1, reader);
    var body := EntriesEndWithBrace(e, behind);
    hide ScanDocument, RootEntryFacts, FoldRoot, Entries.Then, RootOk;
    part := [123] + (body + [125]);
    PartInTheMiddle(before, body, behind);
  }

  lemma PartInTheMiddle(before: seq<Byte>, body: seq<Byte>, behind: seq<Byte>)
    ensures before + ([123] + (body + ([125] + behind))) == before + ([123] + (body + [125])) + behind
  {
  }
}
