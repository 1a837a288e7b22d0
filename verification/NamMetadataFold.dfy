/** On well-formed typed input the reader is a fold: the last occurrence of each recognised
    member wins, and nothing else of the text matters. */
module NamMetadataFold {
  import opened Options
  import opened Bytes
  import opened JsonGrammar
  import opened JsonScan
  import opened JsonStrings
  import opened JsonNumbers
  import opened JsonExactness
  import opened NamMetadata

  /** What a member says, without how it is written. */
  datatype Fact = Fact(key: seq<Byte>, value: FactValue)

  datatype FactValue =
    | TextFact(bytes: seq<Byte>) | NullFact | NumberFact(number: Number) | ObjectFact(facts: seq<Fact>) | SkippedFact

  // ---- typed documents -------------------------------------------------------------

  predicate TypedMetaValue(key: seq<Byte>, value: Json) {
    && (TextFieldOf(key).Some? ==> value.Text? || value == Word(Null))
    && (TextFieldOf(key).None? && LevelFieldOf(key).Some? ==> value.Num? || value == Word(Null))
  }

  predicate TypedMeta(m: Members)
    requires m.Valid()
  {
    m.Member? ==> TypedMetaValue(m.key.Meaning(), m.value) && TypedMeta(m.next)
  }

  predicate TypedRootValue(key: seq<Byte>, value: Json, reader: Reader)
    requires value.Valid()
  {
    match RootKeyOf(key)
    case Version => value.Text?
    case Architecture => value.Text?
    case SampleRate => value.Num? && reader.convert(value.number) > 0.0
    case MetadataKey => value.Object? && TypedMeta(value.members)
    case OtherKey => true
  }

  predicate TypedRoot(m: Members, reader: Reader)
    requires m.Valid()
  {
    m.Member? ==> TypedRootValue(m.key.Meaning(), m.value, reader) && TypedRoot(m.next, reader)
  }

  // ---- facts and their fold --------------------------------------------------------

  function MetaFact(key: seq<Byte>, value: Json): Fact
    requires value.Valid()
  {
    Fact(key, if TextFieldOf(key).None? && LevelFieldOf(key).None? then SkippedFact
              else if value.Text? then TextFact(value.items.Meaning())
              else if value.Num? then NumberFact(value.number)
              else NullFact)
  }

  function MetaFacts(m: Members): seq<Fact>
    requires m.Valid()
  {
    if m.NoMembers? then [] else [MetaFact(m.key.Meaning(), m.value)] + MetaFacts(m.next)
  }

  function RootFact(key: seq<Byte>, value: Json): Fact
    requires value.Valid()
  {
    Fact(key, if RootKeyOf(key) == OtherKey then SkippedFact
              else if value.Text? then TextFact(value.items.Meaning())
              else if value.Num? then NumberFact(value.number)
              else if value.Object? then ObjectFact(MetaFacts(value.members))
              else NullFact)
  }

  function RootFacts(m: Members): seq<Fact>
    requires m.Valid()
  {
    if m.NoMembers? then [] else [RootFact(m.key.Meaning(), m.value)] + RootFacts(m.next)
  }

  function MetaStep(m: Metadata, f: Fact, reader: Reader): Metadata {
    if TextFieldOf(f.key).Some? then
      WithText(m, TextFieldOf(f.key).value, if f.value.TextFact? then Some(f.value.bytes) else None)
    else if LevelFieldOf(f.key).Some? then
      WithLevel(m, LevelFieldOf(f.key).value, if f.value.NumberFact? then Some(reader.convert(f.value.number)) else None)
    else m
  }

  function FoldMeta(facts: seq<Fact>, m: Metadata, reader: Reader): Metadata {
    if facts == [] then m else FoldMeta(facts[1..], MetaStep(m, facts[0], reader), reader)
  }

  function RootStep(m: Metadata, f: Fact, reader: Reader): Metadata {
    match RootKeyOf(f.key)
    case Version => if f.value.TextFact? then m.(version := f.value.bytes) else m
    case Architecture => if f.value.TextFact? then m.(architecture := f.value.bytes) else m
    case SampleRate =>
      if f.value.NumberFact? then m.(rate := reader.convert(f.value.number), rateDeclared := true) else m
    case MetadataKey => if f.value.ObjectFact? then FoldMeta(f.value.facts, m, reader) else m
    case OtherKey => m
  }

  function FoldRoot(facts: seq<Fact>, m: Metadata, reader: Reader): Metadata {
    if facts == [] then m else FoldRoot(facts[1..], RootStep(m, facts[0], reader), reader)
  }

  // ---- the reader is the fold ------------------------------------------------------

  lemma KeyIsRead(m: Members, value: seq<Byte>, max: nat)
    requires m.Member? && m.Valid() && |m.key.Meaning()| <= max
    ensures ScanKey(m.space + WrittenString(m.key) + (m.colon + ([58] + value)), max) == Good(m.key.Meaning(), value)
  {
    hide ScanString, WrittenString, Expect, Items.Meaning;
    StringIsRead(m.space, m.key, m.colon + ([58] + value), max);
    ExpectedIsRead(m.colon, 58, value);
  }

  lemma {:induction false} WordMatches(word: seq<Byte>, rest: seq<Byte>)
    ensures MatchWord(word + rest, word) == (true, rest)
  {
    if word == [] {
      assert word + rest == rest;
    } else {
      assert (word + rest)[1..] == word[1..] + rest;
      WordMatches(word[1..], rest);
    }
  }

  /** White space, and then something that does not start like `null`. */
  lemma NotNull(w: seq<Byte>, s: seq<Byte>)
    requires IsWhitespace(w) && s != [] && !IsSpace(s[0]) && s[0] != 110
    ensures MatchWord(SkipSpace(w + s), Null.Written()) == (false, s)
  {
    SpaceIsSkipped(w, s);
    NothingToSkip(s);
    hide SkipSpace;
  }

  lemma NullIsRead(w: seq<Byte>, rest: seq<Byte>)
    requires IsWhitespace(w)
    ensures MatchWord(SkipSpace(w + (Word(Null).Written() + rest)), Null.Written()) == (true, rest)
  {
    var s := Null.Written() + rest;
    FirstByte(Word(Null), rest);
    SpaceIsSkipped(w, s);
    NothingToSkip(s);
    WordMatches(Null.Written(), rest);
    hide SkipSpace, MatchWord;
  }

  lemma OptionalTextIsRead(w: seq<Byte>, value: Json, rest: seq<Byte>, max: nat)
    requires IsWhitespace(w) && value.Valid() && (value.Text? || value == Word(Null))
    requires value.Text? ==> |value.items.Meaning()| <= max
    ensures ScanOptionalText(w + (value.Written() + rest), max)
            == Good(if value.Text? then Some(value.items.Meaning()) else None, rest)
  {
    hide MatchWord, SkipSpace, ScanString, WrittenString, Items.Meaning, Literal.Written;
    if value.Text? {
      var s := WrittenString(value.items) + rest;
      FirstByte(value, rest);
      NotNull(w, s);
      assert [] + WrittenString(value.items) == WrittenString(value.items);
      StringIsRead([], value.items, rest, max);
    } else {
      NullIsRead(w, rest);
    }
  }

  lemma OptionalLevelIsRead(w: seq<Byte>, value: Json, rest: seq<Byte>, reader: Reader)
    requires IsWhitespace(w) && value.Valid() && (value.Num? || value == Word(Null)) && value.EndsBefore(rest)
    requires value.Num? ==> reader.limits.fits(value.number)
    ensures ScanOptionalLevel(w + (value.Written() + rest), reader)
            == Good(if value.Num? then Some(reader.convert(value.number)) else None, rest)
  {
    hide MatchWord, SkipSpace, ScanNumber, Number.Written, Literal.Written;
    if value.Num? {
      var s := value.number.Written() + rest;
      FirstByte(value, rest);
      NotNull(w, s);
      assert [] + value.number.Written() == value.number.Written();
      NumberIsRead([], value.number, rest, reader.limits.fits);
    } else {
      NullIsRead(w, rest);
    }
  }

  lemma AnyValueIsRead(w: seq<Byte>, value: Json, rest: seq<Byte>, depth: nat, limits: Limits)
    requires IsWhitespace(w) && Allowed(value, depth, limits) && value.EndsBefore(rest)
    ensures ScanValue(w + (value.Written() + rest), depth, limits) == Good((), rest)
  {
    SpaceBeforeValue(w, value.Written() + rest, depth, limits);
    ValueIsRead(value, rest, depth, limits);
    hide ScanValue, Json.Written;
  }

  lemma MetaValueIsRead(w: seq<Byte>, key: seq<Byte>, value: Json, rest: seq<Byte>, m: Metadata, depth: nat, reader: Reader)
    requires IsWhitespace(w) && Allowed(value, depth + 1, reader.limits) && value.EndsBefore(rest)
    requires TypedMetaValue(key, value)
    ensures ScanMetaValue(w + (value.Written() + rest), key, m, depth, reader)
            == Good(MetaStep(m, MetaFact(key, value), reader), rest)
  {
    hide ScanOptionalText, ScanOptionalLevel, ScanValue, Json.Written, Items.Meaning, Number.Valid, Items.Valid,
         TextFieldOf, LevelFieldOf, Json.EndsBefore;
    if TextFieldOf(key).Some? {
      OptionalTextIsRead(w, value, rest, reader.limits.maxString);
    } else if LevelFieldOf(key).Some? {
      OptionalLevelIsRead(w, value, rest, reader);
    } else {
      AnyValueIsRead(w, value, rest, depth + 1, reader.limits);
    }
  }

  /** What follows a member's value, as its closing brace or the comma before the next member. */
  lemma MemberEnds(m: Members, rest: seq<Byte>)
    requires m.Member? && m.Valid()
    ensures m.value.EndsBefore(BehindMember(m, rest))
    ensures m.next.NoMembers? ==> Expect(BehindMember(m, rest), 125) == Good((), rest)
    ensures m.next.Member? ==> Expect(BehindMember(m, rest), 125).Bad?
                               && Expect(BehindMember(m, rest), 44) == Good((), m.next.Written() + rest)
  {
    hide Expect, Json.EndsBefore, Members.Written;
    if m.next.NoMembers? {
      PunctuationEnds(m.value, m.after, 125, rest);
      ExpectedIsRead(m.after, 125, rest);
    } else {
      PunctuationEnds(m.value, m.after, 44, m.next.Written() + rest);
      ExpectedIsRead(m.after, 44, m.next.Written() + rest);
    }
  }

  /** The parts of a member that is allowed. */
  lemma MemberAllowed(m: Members, depth: nat, limits: Limits)
    requires AllowedMembers(m, depth, limits)
    ensures Allowed(m.value, depth + 1, limits) && |m.key.Meaning()| <= limits.maxString
    ensures m.Member? && m.Valid() && IsWhitespace(m.before) && m.key.Valid() && m.value.Valid() && m.next.Valid()
    ensures m.next.Member? ==> AllowedMembers(m.next, depth, limits)
  {
    hide Json.Valid, Json.Within, Items.Meaning;
  }

  lemma {:induction false} MetaMembersAreRead(mm: Members, rest: seq<Byte>, m: Metadata, depth: nat, reader: Reader)
    requires AllowedMembers(mm, depth, reader.limits) && TypedMeta(mm)
    ensures ScanMetaMembers(mm.Written() + rest, m, depth, reader) == Good(FoldMeta(MetaFacts(mm), m, reader), rest)
    decreases mm
  {
    hide ScanKey, ScanMetaValue, Expect, WrittenString, Json.Written, Members.Written, MetaStep, MetaFact, TypedMetaValue,
         BehindMember, Allowed, AllowedMembers;
    MemberAllowed(mm, depth, reader.limits);
    var behind := BehindMember(mm, rest);
    MemberInParts(mm, rest);
    MemberEnds(mm, rest);
    Join(mm.before, mm.value.Written(), behind);
    KeyIsRead(mm, mm.before + (mm.value.Written() + behind), reader.limits.maxString);
    MetaValueIsRead(mm.before, mm.key.Meaning(), mm.value, behind, m, depth, reader);
    var step := MetaStep(m, MetaFact(mm.key.Meaning(), mm.value), reader);
    if mm.next.Member? {
      MetaMembersAreRead(mm.next, rest, step, depth, reader);
    }
  }

  lemma RequiredTextIsRead(w: seq<Byte>, items: Items, rest: seq<Byte>, max: nat)
    requires IsWhitespace(w) && items.Valid() && |items.Meaning()| <= max
    ensures ScanRequiredText(w + (WrittenString(items) + rest), max) == Good(items.Meaning(), rest)
  {
    hide SkipSpace, ScanString, WrittenString, Items.Meaning;
    var s := WrittenString(items) + rest;
    FirstByte(Text(items), rest);
    SpaceIsSkipped(w, s);
    NothingToSkip(s);
    assert [] + WrittenString(items) == WrittenString(items);
    StringIsRead([], items, rest, max);
  }

  lemma RateIsRead(w: seq<Byte>, n: Number, rest: seq<Byte>, reader: Reader)
    requires IsWhitespace(w) && n.Valid() && n.EndsBefore(rest) && reader.limits.fits(n) && reader.convert(n) > 0.0
    ensures ScanRate(w + (n.Written() + rest), reader) == Good(reader.convert(n), rest)
  {
    hide ScanNumber, Number.Written;
    Join(w, n.Written(), rest);
    NumberIsRead(w, n, rest, reader.limits.fits);
  }

  lemma MetaObjectIsRead(w: seq<Byte>, value: Json, rest: seq<Byte>, m: Metadata, depth: nat, reader: Reader)
    requires IsWhitespace(w) && value.Object? && Allowed(value, depth, reader.limits) && TypedMeta(value.members)
    ensures ScanMetaObject(w + (value.Written() + rest), m, depth, reader)
            == Good(FoldMeta(MetaFacts(value.members), m, reader), rest)
  {
    hide Expect, ScanMetaMembers, Members.Written, SkipSpace, TypedMeta, MetaFacts;
    var space, members := value.space, value.members;
    if members.NoMembers? {
      assert value.Written() + rest == [123] + (space + ([125] + rest));
      ExpectedIsRead(w, 123, space + ([125] + rest));
      ExpectedIsRead(space, 125, rest);
      NoFacts();
    } else {
      var body := members.Written() + rest;
      assert value.Written() + rest == [123] + body;
      ExpectedIsRead(w, 123, body);
      MembersStart(members, rest);
      MetaMembersAreRead(members, rest, m, depth, reader);
      SkippedIs(body);
      SpaceBeforeMetaMembers(Skipped(body), SkipSpace(body), m, depth, reader);
    }
  }

  lemma NoFacts()
    ensures MetaFacts(NoMembers) == [] && RootFacts(NoMembers) == []
  {
  }

  lemma SpaceBeforeMetaMembers(w: seq<Byte>, s: seq<Byte>, m: Metadata, depth: nat, reader: Reader)
    requires IsWhitespace(w)
    ensures ScanMetaMembers(w + s, m, depth, reader) == ScanMetaMembers(s, m, depth, reader)
  {
    SpaceIsSkipped(w, s);
    hide ScanItems, SkipSpace, Expect, ScanMetaValue;
  }

  lemma SpaceBeforeRootMembers(w: seq<Byte>, s: seq<Byte>, m: Metadata, depth: nat, reader: Reader)
    requires IsWhitespace(w)
    ensures ScanRootMembers(w + s, m, depth, reader) == ScanRootMembers(s, m, depth, reader)
  {
    SpaceIsSkipped(w, s);
    hide ScanItems, SkipSpace, Expect, ScanRootValue;
  }

  lemma RootValueIsRead(w: seq<Byte>, key: seq<Byte>, value: Json, rest: seq<Byte>, m: Metadata, depth: nat, reader: Reader)
    requires IsWhitespace(w) && Allowed(value, depth + 1, reader.limits) && value.EndsBefore(rest)
    requires TypedRootValue(key, value, reader)
    ensures ScanRootValue(w + (value.Written() + rest), key, m, depth, reader)
            == Good(RootStep(m, RootFact(key, value), reader), rest)
  {
    hide ScanRequiredText, ScanRate, ScanMetaObject, ScanValue, Items.Meaning, Number.Valid, Items.Valid, RootKeyOf,
         Number.EndsBefore, MetaFacts, FoldMeta, WrittenString, Number.Written, Members.Written, TypedMeta;
    match RootKeyOf(key)
    case Version => RequiredTextIsRead(w, value.items, rest, reader.limits.maxString);
    case Architecture => RequiredTextIsRead(w, value.items, rest, reader.limits.maxString);
    case SampleRate => RateIsRead(w, value.number, rest, reader);
    case MetadataKey => MetaObjectIsRead(w, value, rest, m, depth + 1, reader);
    case OtherKey => AnyValueIsRead(w, value, rest, depth + 1, reader.limits);
  }

  lemma {:induction false} RootMembersAreRead(mm: Members, rest: seq<Byte>, m: Metadata, depth: nat, reader: Reader)
    requires AllowedMembers(mm, depth, reader.limits) && TypedRoot(mm, reader)
    ensures ScanRootMembers(mm.Written() + rest, m, depth, reader) == Good(FoldRoot(RootFacts(mm), m, reader), rest)
    decreases mm
  {
    hide ScanKey, ScanRootValue, Expect, WrittenString, Json.Written, Members.Written, RootStep, RootFact, TypedRootValue,
         BehindMember, Allowed, AllowedMembers;
    MemberAllowed(mm, depth, reader.limits);
    var behind := BehindMember(mm, rest);
    MemberInParts(mm, rest);
    MemberEnds(mm, rest);
    Join(mm.before, mm.value.Written(), behind);
    KeyIsRead(mm, mm.before + (mm.value.Written() + behind), reader.limits.maxString);
    RootValueIsRead(mm.before, mm.key.Meaning(), mm.value, behind, m, depth, reader);
    var step := RootStep(m, RootFact(mm.key.Meaning(), mm.value), reader);
    if mm.next.Member? {
      RootMembersAreRead(mm.next, rest, step, depth, reader);
    }
  }

  /** A document: the root object with white space around it. */
  predicate TypedDocument(root: Json, before: seq<Byte>, behind: seq<Byte>, reader: Reader) {
    && IsWhitespace(before) && IsWhitespace(behind) && root.Object? && Allowed(root, 1, reader.limits)
    && TypedRoot(root.members, reader)
  }

  function Result(facts: seq<Fact>, reader: Reader): Scan<Metadata> {
    var m := FoldRoot(facts, EMPTY, reader);
    if m.version == [] || m.architecture == [] then Bad(MissingRequiredField, []) else Good(m, [])
  }

  /** Reading a well-formed typed document is folding its members in order; only a missing or
      empty required field is an error. */
  lemma DocumentIsAFold(before: seq<Byte>, root: Json, behind: seq<Byte>, reader: Reader)
    requires TypedDocument(root, before, behind, reader)
    ensures ScanDocument(before + (root.Written() + behind), reader) == Result(RootFacts(root.members), reader)
  {
    RootIsRead(before, root, behind, reader);
    SpaceIsSkipped(behind, []);
    assert behind + [] == behind;
    hide Expect, ScanRoot, SkipSpace, RootFacts, FoldRoot, Json.Written;
    assert SkipSpace([]) == [];
  }

  lemma RootIsRead(before: seq<Byte>, root: Json, behind: seq<Byte>, reader: Reader)
    requires TypedDocument(root, before, behind, reader)
    ensures Expect(before + (root.Written() + behind), 123).Good?
    ensures ScanRoot(Expect(before + (root.Written() + behind), 123).rest, 1, reader)
            == Good(FoldRoot(RootFacts(root.members), EMPTY, reader), behind)
  {
    hide Expect, ScanRootMembers, Members.Written, SkipSpace, TypedRoot, RootFacts;
    var space, members := root.space, root.members;
    if members.NoMembers? {
      assert root.Written() + behind == [123] + (space + ([125] + behind));
      ExpectedIsRead(before, 123, space + ([125] + behind));
      ExpectedIsRead(space, 125, behind);
      NoFacts();
    } else {
      var body := members.Written() + behind;
      assert root.Written() + behind == [123] + body;
      ExpectedIsRead(before, 123, body);
      MembersStart(members, behind);
      RootMembersAreRead(members, behind, EMPTY, 1, reader);
      SkippedIs(body);
      SpaceBeforeRootMembers(Skipped(body), SkipSpace(body), EMPTY, 1, reader);
    }
  }

  // ---- what does not matter --------------------------------------------------------

  /** Documents with the same facts read the same: white space, escapes, the spelling of
      numbers' surroundings and the content of skipped values make no difference. */
  lemma OnlyFactsMatter(before: seq<Byte>, root: Json, behind: seq<Byte>,
                        before': seq<Byte>, root': Json, behind': seq<Byte>, reader: Reader)
    requires TypedDocument(root, before, behind, reader) && TypedDocument(root', before', behind', reader)
    requires RootFacts(root.members) == RootFacts(root'.members)
    ensures ScanDocument(before + (root.Written() + behind), reader)
            == ScanDocument(before' + (root'.Written() + behind'), reader)
  {
    DocumentIsAFold(before, root, behind, reader);
    DocumentIsAFold(before', root', behind', reader);
    hide ScanDocument, Json.Written, RootFacts;
  }
}
