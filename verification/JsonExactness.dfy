/** `skip_value` reads exactly the values of RFC 8259 within its limits. */
module JsonExactness {
  import opened Bytes
  import opened JsonGrammar
  import opened JsonScan
  import opened JsonStrings
  import opened JsonNumbers

  /** The value is allowed at this level: not too deep, no string too long, no number that
      cannot be represented. */
  predicate Allowed(t: Json, depth: nat, limits: Limits) {
    t.Valid() && t.Within(limits.maxString, limits.fits) && depth + t.Depth() <= limits.maxDepth + 1
  }

  predicate AllowedMembers(m: Members, depth: nat, limits: Limits) {
    m.Member? && m.Valid() && m.Within(limits.maxString, limits.fits) && depth + m.Depth() <= limits.maxDepth
  }

  predicate AllowedElements(e: Elements, depth: nat, limits: Limits) {
    e.Element? && e.Valid() && e.Within(limits.maxString, limits.fits) && depth + e.Depth() <= limits.maxDepth
  }

  // ---- what comes first, what comes behind -----------------------------------------

  /** No value starts like white space or punctuation. */
  lemma FirstByte(t: Json, rest: seq<Byte>)
    requires t.Valid()
    ensures var s := t.Written() + rest;
            s != [] && !IsSpace(s[0]) && s[0] != 93 && s[0] != 125 && s[0] != 44 && s[0] != 58
    ensures var s := t.Written() + rest;
            match t
            case Text(_) => s[0] == QUOTE
            case Object(_, _) => s[0] == 123
            case Array(_, _) => s[0] == 91
            case Word(True) => s[0] == 116
            case Word(False) => s[0] == 102
            case Word(Null) => s[0] == 110
            case Num(n) => s[0] == 45 || IsDigit(s[0])
  {
    if t.Num? { NumberInParts(t.number, rest); }
  }

  /** Behind a member: white space, and the closing brace or a comma and the next member. */
  function BehindMember(m: Members, rest: seq<Byte>): seq<Byte>
    requires m.Member?
  {
    m.after + (if m.next.NoMembers? then [125] + rest else [44] + (m.next.Written() + rest))
  }

  function BehindElement(e: Elements, rest: seq<Byte>): seq<Byte>
    requires e.Element?
  {
    e.after + (if e.next.NoElements? then [93] + rest else [44] + (e.next.Written() + rest))
  }

  lemma MemberInParts(m: Members, rest: seq<Byte>)
    requires m.Member?
    ensures m.Written() + rest
            == m.space + WrittenString(m.key)
               + (m.colon + ([58] + (m.before + m.value.Written() + BehindMember(m, rest))))
  {
    hide WrittenString, Json.Written;
    var a, b, c, d, e, f := m.space, WrittenString(m.key), m.colon, m.before, m.value.Written(), m.after;
    var tail := if m.next.NoMembers? then [125] else [44] + m.next.Written();
    assert m.Written() == a + b + c + [58] + d + e + f + tail;
    assert (if m.next.NoMembers? then [125] + rest else [44] + (m.next.Written() + rest)) == tail + rest by {
      if !m.next.NoMembers? { Join([44], m.next.Written(), rest); }
    }
    Join(a + b + c + [58] + d + e + f, tail, rest);
    Join(a + b + c + [58] + d + e, f, tail + rest);
    Join(a + b + c + [58] + d, e, f + (tail + rest));
    Join(a + b + c + [58], d, e + (f + (tail + rest)));
    Join(a + b + c, [58], d + (e + (f + (tail + rest))));
    Join(a + b, c, [58] + (d + (e + (f + (tail + rest)))));
    Join(d, e, f + (tail + rest));
  }

  lemma ElementInParts(e: Elements, rest: seq<Byte>)
    requires e.Element?
    ensures e.Written() + rest == e.space + e.value.Written() + BehindElement(e, rest)
  {
    hide Json.Written;
    var a, b, c := e.space, e.value.Written(), e.after;
    var tail := if e.next.NoElements? then [93] else [44] + e.next.Written();
    assert e.Written() == a + b + c + tail;
    if !e.next.NoElements? { Join([44], e.next.Written(), rest); }
    Join(a + b + c, tail, rest);
    Join(a + b, c, tail + rest);
  }

  /** White space, a brace or a comma ends every number. */
  lemma PunctuationEnds(t: Json, after: seq<Byte>, mark: Byte, rest: seq<Byte>)
    requires IsWhitespace(after) && (mark == 125 || mark == 93 || mark == 44)
    ensures t.EndsBefore(after + ([mark] + rest))
  {
  }

  lemma ExpectedIsRead(w: seq<Byte>, mark: Byte, rest: seq<Byte>)
    requires IsWhitespace(w) && !IsSpace(mark)
    ensures Expect(w + ([mark] + rest), mark) == Good((), rest)
    ensures forall other: Byte :: other != mark ==> Expect(w + ([mark] + rest), other).Bad?
  {
    SpaceIsSkipped(w, [mark] + rest);
    NothingToSkip([mark] + rest);
    assert ([mark] + rest)[1..] == rest;
    hide SkipSpace;
  }

  lemma OtherIsNotExpected(w: seq<Byte>, s: seq<Byte>, mark: Byte)
    requires IsWhitespace(w) && s != [] && !IsSpace(s[0]) && s[0] != mark
    ensures Expect(w + s, mark).Bad? && SkipSpace(w + s) == s
  {
    SpaceIsSkipped(w, s);
    NothingToSkip(s);
    hide SkipSpace;
  }

  /** White space in front of a value or a member list makes no difference. */
  lemma SpaceBeforeMembers(w: seq<Byte>, s: seq<Byte>, depth: nat, limits: Limits)
    requires IsWhitespace(w)
    ensures ScanMembers(w + s, depth, limits) == ScanMembers(s, depth, limits)
  {
    SpaceIsSkipped(w, s);
    hide ScanItems, SkipSpace, Expect, ScanValue;
  }

  lemma SpaceBeforeValue(w: seq<Byte>, s: seq<Byte>, depth: nat, limits: Limits)
    requires IsWhitespace(w) && depth <= limits.maxDepth
    ensures ScanValue(w + s, depth, limits) == ScanValue(s, depth, limits)
  {
    SpaceIsSkipped(w, s);
    hide ScanString, ScanMembers, ScanElements, ScanNumber, SkipSpace, Expect, ScanExact;
  }

  lemma SpaceBeforeElements(w: seq<Byte>, s: seq<Byte>, depth: nat, limits: Limits)
    requires IsWhitespace(w) && depth < limits.maxDepth
    ensures ScanElements(w + s, depth, limits) == ScanElements(s, depth, limits)
  {
    SpaceBeforeValue(w, s, depth + 1, limits);
    hide ScanValue, Expect;
  }

  // ---- every allowed value is read -------------------------------------------------

  lemma WordIsRead(l: Literal, rest: seq<Byte>)
    ensures ScanExact(l.Written() + rest, l.Written()) == Good((), rest)
  {
    ExactIsRead(l.Written(), rest);
  }

  lemma {:induction false} ExactIsRead(word: seq<Byte>, rest: seq<Byte>)
    ensures ScanExact(word + rest, word) == Good((), rest)
  {
    if word == [] {
      assert word + rest == rest;
    } else {
      assert (word + rest)[1..] == word[1..] + rest;
      ExactIsRead(word[1..], rest);
    }
  }

  lemma TextIsRead(items: Items, rest: seq<Byte>, depth: nat, limits: Limits)
    requires Allowed(Text(items), depth, limits)
    ensures ScanValue(Text(items).Written() + rest, depth, limits) == Good((), rest)
  {
    hide ScanString, ScanNumber, ScanExact, SkipSpace, ScanMembers, ScanElements, Expect, WrittenString, Items.Meaning;
    var s := WrittenString(items) + rest;
    FirstByte(Text(items), rest);
    NothingToSkip(s);
    assert [] + WrittenString(items) == WrittenString(items);
    StringIsRead([], items, rest, limits.maxString);
  }

  lemma NumIsRead(n: Number, rest: seq<Byte>, depth: nat, limits: Limits)
    requires Allowed(Num(n), depth, limits) && n.EndsBefore(rest)
    ensures ScanValue(Num(n).Written() + rest, depth, limits) == Good((), rest)
  {
    hide ScanString, ScanNumber, ScanExact, SkipSpace, ScanMembers, ScanElements, Expect, Number.Written;
    var s := n.Written() + rest;
    FirstByte(Num(n), rest);
    NothingToSkip(s);
    assert [] + n.Written() == n.Written();
    NumberIsRead([], n, rest, limits.fits);
  }

  lemma LiteralIsRead(l: Literal, rest: seq<Byte>, depth: nat, limits: Limits)
    requires depth <= limits.maxDepth
    ensures ScanValue(Word(l).Written() + rest, depth, limits) == Good((), rest)
  {
    hide ScanString, ScanNumber, ScanExact, SkipSpace, ScanMembers, ScanElements, Expect;
    var s := l.Written() + rest;
    FirstByte(Word(l), rest);
    NothingToSkip(s);
    WordIsRead(l, rest);
    hide Literal.Written;
  }

  lemma {:induction false} ValueIsRead(t: Json, rest: seq<Byte>, depth: nat, limits: Limits)
    requires Allowed(t, depth, limits) && t.EndsBefore(rest)
    ensures ScanValue(t.Written() + rest, depth, limits) == Good((), rest)
    decreases t, 1
  {
    match t
    case Object(space, members) => ObjectIsRead(space, members, rest, depth, limits);
    case Array(space, elements) => ArrayIsRead(space, elements, rest, depth, limits);
    case Text(items) => TextIsRead(items, rest, depth, limits);
    case Num(n) => NumIsRead(n, rest, depth, limits);
    case Word(l) => LiteralIsRead(l, rest, depth, limits);
  }

  lemma {:induction false} ObjectIsRead(space: seq<Byte>, members: Members, rest: seq<Byte>, depth: nat, limits: Limits)
    requires Allowed(Object(space, members), depth, limits)
    ensures ScanValue(Object(space, members).Written() + rest, depth, limits) == Good((), rest)
    decreases members, 1
  {
    hide ScanMembers, ScanElements, Expect, SkipSpace;
    var s := Object(space, members).Written() + rest;
    NothingToSkip(s);
    if members.NoMembers? {
      assert s[1..] == space + ([125] + rest);
      ExpectedIsRead(space, 125, rest);
    } else {
      var body := members.Written() + rest;
      assert s[1..] == body;
      MembersAreRead(members, rest, depth, limits);
      MembersStart(members, rest);
      SpaceBeforeMembers(Skipped(body), SkipSpace(body), depth, limits);
      SkippedIs(body);
    }
  }

  lemma MembersStart(m: Members, rest: seq<Byte>)
    requires m.Member? && m.Valid()
    ensures Expect(m.Written() + rest, 125).Bad?
  {
    MemberInParts(m, rest);
    var behind := m.colon + ([58] + (m.before + m.value.Written() + BehindMember(m, rest)));
    Join(m.space, WrittenString(m.key), behind);
    OtherIsNotExpected(m.space, WrittenString(m.key) + behind, 125);
    hide Members.Written, Expect, BehindMember;
  }

  lemma {:induction false} MembersAreRead(m: Members, rest: seq<Byte>, depth: nat, limits: Limits)
    requires AllowedMembers(m, depth, limits)
    ensures ScanMembers(m.Written() + rest, depth, limits) == Good((), rest)
    decreases m, 0
  {
    hide ScanValue, ScanString, Expect, WrittenString, Json.Written, Members.Written;
    var behind := BehindMember(m, rest);
    var value := m.before + m.value.Written() + behind;
    MemberInParts(m, rest);
    StringIsRead(m.space, m.key, m.colon + ([58] + value), limits.maxString);
    ExpectedIsRead(m.colon, 58, value);
    Join(m.before, m.value.Written(), behind);
    SpaceBeforeValue(m.before, m.value.Written() + behind, depth + 1, limits);
    if m.next.NoMembers? {
      PunctuationEnds(m.value, m.after, 125, rest);
      ValueIsRead(m.value, behind, depth + 1, limits);
      ExpectedIsRead(m.after, 125, rest);
    } else {
      var more := m.next.Written() + rest;
      PunctuationEnds(m.value, m.after, 44, more);
      ValueIsRead(m.value, behind, depth + 1, limits);
      ExpectedIsRead(m.after, 44, more);
      MembersAreRead(m.next, rest, depth, limits);
    }
  }

  lemma {:induction false} ArrayIsRead(space: seq<Byte>, elements: Elements, rest: seq<Byte>, depth: nat, limits: Limits)
    requires Allowed(Array(space, elements), depth, limits)
    ensures ScanValue(Array(space, elements).Written() + rest, depth, limits) == Good((), rest)
    decreases elements, 1
  {
    hide ScanMembers, ScanElements, Expect, SkipSpace;
    var s := Array(space, elements).Written() + rest;
    NothingToSkip(s);
    if elements.NoElements? {
      assert s[1..] == space + ([93] + rest);
      ExpectedIsRead(space, 93, rest);
    } else {
      var body := elements.Written() + rest;
      assert s[1..] == body;
      ElementsAreRead(elements, rest, depth, limits);
      ElementsStart(elements, rest);
      SpaceBeforeElements(Skipped(body), SkipSpace(body), depth, limits);
      SkippedIs(body);
    }
  }

  lemma ElementsStart(e: Elements, rest: seq<Byte>)
    requires e.Element? && e.Valid()
    ensures Expect(e.Written() + rest, 93).Bad?
  {
    ElementInParts(e, rest);
    Join(e.space, e.value.Written(), BehindElement(e, rest));
    FirstByte(e.value, BehindElement(e, rest));
    OtherIsNotExpected(e.space, e.value.Written() + BehindElement(e, rest), 93);
    hide Elements.Written, Json.Written, Expect, BehindElement;
  }

  lemma {:induction false} ElementsAreRead(e: Elements, rest: seq<Byte>, depth: nat, limits: Limits)
    requires AllowedElements(e, depth, limits)
    ensures ScanElements(e.Written() + rest, depth, limits) == Good((), rest)
    decreases e, 0
  {
    hide ScanValue, Expect, Json.Written, Elements.Written;
    var behind := BehindElement(e, rest);
    ElementInParts(e, rest);
    Join(e.space, e.value.Written(), behind);
    SpaceBeforeValue(e.space, e.value.Written() + behind, depth + 1, limits);
    if e.next.NoElements? {
      PunctuationEnds(e.value, e.after, 93, rest);
      ValueIsRead(e.value, behind, depth + 1, limits);
      ExpectedIsRead(e.after, 93, rest);
    } else {
      var more := e.next.Written() + rest;
      PunctuationEnds(e.value, e.after, 44, more);
      ValueIsRead(e.value, behind, depth + 1, limits);
      ExpectedIsRead(e.after, 44, more);
      ElementsAreRead(e.next, rest, depth, limits);
    }
  }

  // ---- and nothing else is ---------------------------------------------------------

  lemma ExpectedWasThere(s: seq<Byte>, mark: Byte)
    requires Expect(s, mark).Good?
    ensures s == Skipped(s) + ([mark] + Expect(s, mark).rest) && IsWhitespace(Skipped(s))
  {
    SkippedIs(s);
    HeadTail(SkipSpace(s));
  }

  lemma {:induction false} ExactWasThere(s: seq<Byte>, word: seq<Byte>)
    requires ScanExact(s, word).Good?
    ensures s == word + ScanExact(s, word).rest
  {
    if word == [] {
      assert word + s == s;
    } else {
      ExactWasThere(s[1..], word[1..]);
      HeadTail(s);
      HeadTail(word);
      Join([word[0]], word[1..], ScanExact(s, word).rest);
    }
  }

  /** The text of the value, without white space before it. */
  predicate ReadAs(t: Json, s: seq<Byte>, rest: seq<Byte>, depth: nat, limits: Limits) {
    Allowed(t, depth, limits) && t.EndsBefore(rest) && s == t.Written() + rest
  }

  lemma NothingSkipped(s: seq<Byte>)
    ensures SkipSpace(SkipSpace(s)) == SkipSpace(s) && Skipped(SkipSpace(s)) == []
  {
  }

  lemma TextWasThere(s: seq<Byte>, depth: nat, limits: Limits) returns (t: Json)
    requires depth <= limits.maxDepth && SkipSpace(s) == s && ScanString(s, limits.maxString).Good?
    ensures ReadAs(t, s, ScanString(s, limits.maxString).rest, depth, limits)
  {
    hide WrittenString, Items.Meaning;
    var w, items := StringWasThere(s, limits.maxString);
    t := Text(items);
    var rest := ScanString(s, limits.maxString).rest;
    Join(w, WrittenString(items), rest);
  }

  lemma NumWasThere(s: seq<Byte>, depth: nat, limits: Limits) returns (t: Json)
    requires depth <= limits.maxDepth && SkipSpace(s) == s && ScanNumber(s, limits.fits).Good?
    ensures ReadAs(t, s, ScanNumber(s, limits.fits).rest, depth, limits)
  {
    hide Number.Written, Number.Valid, Number.EndsBefore;
    var r := ScanNumber(s, limits.fits);
    NumberWasThere(s, limits.fits);
    t := Num(r.value);
    Join(Skipped(s), r.value.Written(), r.rest);
    hide ScanNumber;
  }

  lemma ValueWasThere(s: seq<Byte>, depth: nat, limits: Limits) returns (t: Json)
    requires ScanValue(s, depth, limits).Good?
    ensures ReadAs(t, SkipSpace(s), ScanValue(s, depth, limits).rest, depth, limits)
    decreases |s|, 1
  {
    hide ScanString, ScanNumber, ScanExact, SkipSpace, ScanMembers, ScanElements, Expect, ReadAs;
    SkippedIs(s);
    NothingSkipped(s);
    var u := SkipSpace(s);
    if u != [] && u[0] == QUOTE {
      t := TextWasThere(u, depth, limits);
    } else if u != [] && u[0] == 123 {
      t := ObjectWasThere(u, depth, limits);
    } else if u != [] && u[0] == 91 {
      t := ArrayWasThere(u, depth, limits);
    } else if u != [] && u[0] == 116 {
      t := LiteralWasThere(u, True, depth, limits);
    } else if u != [] && u[0] == 102 {
      t := LiteralWasThere(u, False, depth, limits);
    } else if u != [] && u[0] == 110 {
      t := LiteralWasThere(u, Null, depth, limits);
    } else {
      t := NumWasThere(u, depth, limits);
    }
  }

  lemma LiteralWasThere(s: seq<Byte>, l: Literal, depth: nat, limits: Limits) returns (t: Json)
    requires depth <= limits.maxDepth && ScanExact(s, l.Written()).Good?
    ensures ReadAs(t, s, ScanExact(s, l.Written()).rest, depth, limits)
  {
    ExactWasThere(s, l.Written());
    t := Word(l);
    hide Literal.Written, ScanExact;
  }

  /** The object branch of `ScanValue`. */
  function ObjectScan(u: seq<Byte>, depth: nat, limits: Limits): Scan<()>
    requires u != []
  {
    if Expect(u[1..], 125).Good? then Expect(u[1..], 125) else ScanMembers(SkipSpace(u[1..]), depth, limits)
  }

  lemma ObjectWasThere(u: seq<Byte>, depth: nat, limits: Limits) returns (t: Json)
    requires u != [] && u[0] == 123 && depth <= limits.maxDepth && ObjectScan(u, depth, limits).Good?
    ensures ReadAs(t, u, ObjectScan(u, depth, limits).rest, depth, limits)
    decreases |u|, 0
  {
    hide ScanMembers, Expect, AllowedMembers, Allowed, Json.Written, Members.Written;
    HeadTail(u);
    var body := u[1..];
    var rest := ObjectScan(u, depth, limits).rest;
    if Expect(body, 125).Good? {
      ExpectedWasThere(body, 125);
      t := Object(Skipped(body), NoMembers);
      EmptyObject(Skipped(body), depth, limits, rest);
    } else {
      SkippedIs(body);
      var m := MembersWereThere(SkipSpace(body), depth, limits);
      SpaceAdded(m, Skipped(body), depth, limits, rest);
      var spaced := m.(space := Skipped(body) + m.space);
      t := Object([], spaced);
      ObjectOf(spaced, depth, limits, rest);
    }
  }

  lemma EmptyObject(w: seq<Byte>, depth: nat, limits: Limits, rest: seq<Byte>)
    requires IsWhitespace(w) && depth <= limits.maxDepth
    ensures Allowed(Object(w, NoMembers), depth, limits) && Object(w, NoMembers).EndsBefore(rest)
    ensures Object(w, NoMembers).Written() + rest == [123] + (w + ([125] + rest))
  {
    Join([123], w + [125], rest);
    Join(w, [125], rest);
  }

  lemma ObjectOf(m: Members, depth: nat, limits: Limits, rest: seq<Byte>)
    requires AllowedMembers(m, depth, limits)
    ensures Allowed(Object([], m), depth, limits) && Object([], m).EndsBefore(rest)
    ensures Object([], m).Written() + rest == [123] + (m.Written() + rest)
  {
    hide Members.Written, Members.Valid, Members.Within, Members.Depth;
    Join([123], m.Written(), rest);
  }

  lemma SpaceAdded(m: Members, w: seq<Byte>, depth: nat, limits: Limits, rest: seq<Byte>)
    requires AllowedMembers(m, depth, limits) && IsWhitespace(w)
    ensures AllowedMembers(m.(space := w + m.space), depth, limits)
    ensures m.(space := w + m.space).Written() + rest == w + (m.Written() + rest)
  {
    var n := m.(space := w + m.space);
    MemberInParts(m, rest);
    MemberInParts(n, rest);
    assert BehindMember(n, rest) == BehindMember(m, rest);
    var behind := m.colon + ([58] + (m.before + m.value.Written() + BehindMember(m, rest)));
    hide Members.Written, WrittenString, BehindMember, Json.Written;
    Join(w + m.space, WrittenString(m.key), behind);
    Join(w, m.space, WrittenString(m.key) + behind);
    Join(m.space, WrittenString(m.key), behind);
  }

  lemma MembersWereThere(s: seq<Byte>, depth: nat, limits: Limits) returns (m: Members)
    requires ScanMembers(s, depth, limits).Good?
    ensures m.Member? && AllowedMembers(m, depth, limits) && s == m.Written() + ScanMembers(s, depth, limits).rest
    decreases |s|, 0
  {
    hide ScanValue, ScanString, Expect, Members.Written, WrittenString, Items.Meaning, Json.Written, BehindMember, SkipSpace;
    var rest := ScanMembers(s, depth, limits).rest;
    var w, key := StringWasThere(s, limits.maxString);
    var behindKey := ScanString(s, limits.maxString).rest;
    ExpectedWasThere(behindKey, 58);
    var behindColon := Expect(behindKey, 58).rest;
    var value := ValueWasThere(behindColon, depth + 1, limits);
    SkippedIs(behindColon);
    var behindValue := ScanValue(behindColon, depth + 1, limits).rest;
    Join(Skipped(behindColon), value.Written(), behindValue);
    var next := NoMembers;
    if Expect(behindValue, 125).Good? {
      ExpectedWasThere(behindValue, 125);
    } else {
      ExpectedWasThere(behindValue, 44);
      next := MembersWereThere(Expect(behindValue, 44).rest, depth, limits);
    }
    m := Member(w, key, Skipped(behindKey), Skipped(behindColon), value, Skipped(behindValue), next);
    BehindIs(m, rest, behindValue);
    MemberInParts(m, rest);
    MemberIsAllowed(m, depth, limits);
    assert behindColon == m.before + m.value.Written() + BehindMember(m, rest);
  }

  lemma MemberIsAllowed(m: Members, depth: nat, limits: Limits)
    requires m.Member? && IsWhitespace(m.space) && IsWhitespace(m.colon) && IsWhitespace(m.before) && IsWhitespace(m.after)
    requires m.key.Valid() && |m.key.Meaning()| <= limits.maxString && Allowed(m.value, depth + 1, limits)
    requires m.next.Member? ==> AllowedMembers(m.next, depth, limits)
    ensures AllowedMembers(m, depth, limits)
  {
    hide Json.Valid, Json.Within, Items.Valid, Items.Meaning;
    if m.next.NoMembers? {
      assert m.next.Valid() && m.next.Within(limits.maxString, limits.fits) && m.next.Depth() == 0;
    }
  }

  lemma ElementIsAllowed(e: Elements, depth: nat, limits: Limits)
    requires e.Element? && IsWhitespace(e.space) && IsWhitespace(e.after) && Allowed(e.value, depth + 1, limits)
    requires e.next.Element? ==> AllowedElements(e.next, depth, limits)
    ensures AllowedElements(e, depth, limits)
  {
    hide Json.Valid, Json.Within;
    if e.next.NoElements? {
      assert e.next.Valid() && e.next.Within(limits.maxString, limits.fits) && e.next.Depth() == 0;
    }
  }

  lemma BehindIs(m: Members, rest: seq<Byte>, behind: seq<Byte>)
    requires m.Member?
    requires m.next.NoMembers? ==> behind == m.after + ([125] + rest)
    requires m.next.Member? ==> behind == m.after + ([44] + (m.next.Written() + rest))
    ensures BehindMember(m, rest) == behind
  {
  }

  function ArrayScan(u: seq<Byte>, depth: nat, limits: Limits): Scan<()>
    requires u != []
  {
    if Expect(u[1..], 93).Good? then Expect(u[1..], 93) else ScanElements(SkipSpace(u[1..]), depth, limits)
  }

  lemma ArrayWasThere(u: seq<Byte>, depth: nat, limits: Limits) returns (t: Json)
    requires u != [] && u[0] == 91 && depth <= limits.maxDepth && ArrayScan(u, depth, limits).Good?
    ensures ReadAs(t, u, ArrayScan(u, depth, limits).rest, depth, limits)
    decreases |u|, 0
  {
    hide ScanElements, Expect, AllowedElements, Allowed, Json.Written, Elements.Written;
    HeadTail(u);
    var body := u[1..];
    var rest := ArrayScan(u, depth, limits).rest;
    if Expect(body, 93).Good? {
      ExpectedWasThere(body, 93);
      t := Array(Skipped(body), NoElements);
      EmptyArray(Skipped(body), depth, limits, rest);
    } else {
      SkippedIs(body);
      var e := ElementsWereThere(SkipSpace(body), depth, limits);
      SpaceAddedToElements(e, Skipped(body), depth, limits, rest);
      var spaced := e.(space := Skipped(body) + e.space);
      t := Array([], spaced);
      ArrayOf(spaced, depth, limits, rest);
    }
  }

  lemma EmptyArray(w: seq<Byte>, depth: nat, limits: Limits, rest: seq<Byte>)
    requires IsWhitespace(w) && depth <= limits.maxDepth
    ensures Allowed(Array(w, NoElements), depth, limits) && Array(w, NoElements).EndsBefore(rest)
    ensures Array(w, NoElements).Written() + rest == [91] + (w + ([93] + rest))
  {
    Join([91], w + [93], rest);
    Join(w, [93], rest);
  }

  lemma ArrayOf(e: Elements, depth: nat, limits: Limits, rest: seq<Byte>)
    requires AllowedElements(e, depth, limits)
    ensures Allowed(Array([], e), depth, limits) && Array([], e).EndsBefore(rest)
    ensures Array([], e).Written() + rest == [91] + (e.Written() + rest)
  {
    hide Elements.Written, Elements.Valid, Elements.Within, Elements.Depth;
    Join([91], e.Written(), rest);
  }

  lemma SpaceAddedToElements(e: Elements, w: seq<Byte>, depth: nat, limits: Limits, rest: seq<Byte>)
    requires AllowedElements(e, depth, limits) && IsWhitespace(w)
    ensures AllowedElements(e.(space := w + e.space), depth, limits)
    ensures e.(space := w + e.space).Written() + rest == w + (e.Written() + rest)
  {
    var n := e.(space := w + e.space);
    ElementInParts(e, rest);
    ElementInParts(n, rest);
    assert BehindElement(n, rest) == BehindElement(e, rest);
    hide Elements.Written, BehindElement, Json.Written;
    Join(w + e.space, e.value.Written(), BehindElement(e, rest));
    Join(w, e.space, e.value.Written() + BehindElement(e, rest));
    Join(e.space, e.value.Written(), BehindElement(e, rest));
  }

  lemma ElementsWereThere(s: seq<Byte>, depth: nat, limits: Limits) returns (e: Elements)
    requires ScanElements(s, depth, limits).Good?
    ensures e.Element? && AllowedElements(e, depth, limits) && s == e.Written() + ScanElements(s, depth, limits).rest
    decreases |s|, 2
  {
    hide ScanValue, Expect, Elements.Written, Json.Written, BehindElement, SkipSpace;
    var rest := ScanElements(s, depth, limits).rest;
    var value := ValueWasThere(s, depth + 1, limits);
    SkippedIs(s);
    var behindValue := ScanValue(s, depth + 1, limits).rest;
    Join(Skipped(s), value.Written(), behindValue);
    var next := NoElements;
    if Expect(behindValue, 93).Good? {
      ExpectedWasThere(behindValue, 93);
    } else {
      ExpectedWasThere(behindValue, 44);
      next := ElementsWereThere(Expect(behindValue, 44).rest, depth, limits);
    }
    e := Element(Skipped(s), value, Skipped(behindValue), next);
    BehindElementIs(e, rest, behindValue);
    ElementInParts(e, rest);
    ElementIsAllowed(e, depth, limits);
    assert s == e.space + e.value.Written() + BehindElement(e, rest);
  }

  lemma BehindElementIs(e: Elements, rest: seq<Byte>, behind: seq<Byte>)
    requires e.Element?
    requires e.next.NoElements? ==> behind == e.after + ([93] + rest)
    requires e.next.Element? ==> behind == e.after + ([44] + (e.next.Written() + rest))
    ensures BehindElement(e, rest) == behind
  {
  }

  // ---- exactness -------------------------------------------------------------------

  /** The input starts with white space and an allowed value, which `rest` does not continue. */
  ghost predicate StartsWithValue(s: seq<Byte>, rest: seq<Byte>, depth: nat, limits: Limits) {
    exists w, t :: IsValueText(s, w, t, rest, depth, limits)
  }

  ghost predicate IsValueText(s: seq<Byte>, w: seq<Byte>, t: Json, rest: seq<Byte>, depth: nat, limits: Limits) {
    IsWhitespace(w) && Allowed(t, depth, limits) && t.EndsBefore(rest) && s == w + (t.Written() + rest)
  }

  /** `skip_value` succeeds exactly on the values of the grammar within the limits, and reads
      exactly one, for every input. */
  lemma ValuesAreExact(s: seq<Byte>, rest: seq<Byte>, depth: nat, limits: Limits)
    ensures ScanValue(s, depth, limits) == Good((), rest) <==> StartsWithValue(s, rest, depth, limits)
  {
    hide ScanValue, Json.Written, Json.Valid, Json.Within, SkipSpace;
    if ScanValue(s, depth, limits) == Good((), rest) {
      var t := ValueWasThere(s, depth, limits);
      SkippedIs(s);
      assert IsValueText(s, Skipped(s), t, rest, depth, limits);
    }
    if StartsWithValue(s, rest, depth, limits) {
      var w, t :| IsValueText(s, w, t, rest, depth, limits);
      SpaceBeforeValue(w, t.Written() + rest, depth, limits);
      ValueIsRead(t, rest, depth, limits);
    }
  }
}
