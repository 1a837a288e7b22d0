/** What becomes of a value of the grammar that is not within the limits: `skip_value` fails with
    the code of the first limit that is exceeded in the order of the text. */
module JsonFaults {
  import opened Options
  import opened Bytes
  import opened JsonGrammar
  import opened JsonScan
  import opened JsonStrings
  import opened JsonNumbers
  import opened JsonExactness

  /** The first limit that the value exceeds. */
  function Fault(t: Json, depth: nat, limits: Limits): Option<Code>
    requires t.Valid()
  {
    if depth > limits.maxDepth then Some(NestingTooDeep)
    else
      match t
      case Text(items) => if |items.Meaning()| > limits.maxString then Some(StringTooLong) else None
      case Num(number) => if limits.fits(number) then None else Some(MalformedJson)
      case Word(_) => None
      case Object(_, members) => FaultInMembers(members, depth, limits)
      case Array(_, elements) => FaultInElements(elements, depth, limits)
  }

  function FaultInMembers(m: Members, depth: nat, limits: Limits): Option<Code>
    requires m.Valid()
  {
    if m.NoMembers? then None
    else if |m.key.Meaning()| > limits.maxString then Some(StringTooLong)
    else if Fault(m.value, depth + 1, limits).Some? then Fault(m.value, depth + 1, limits)
    else FaultInMembers(m.next, depth, limits)
  }

  function FaultInElements(e: Elements, depth: nat, limits: Limits): Option<Code>
    requires e.Valid()
  {
    if e.NoElements? then None
    else if Fault(e.value, depth + 1, limits).Some? then Fault(e.value, depth + 1, limits)
    else FaultInElements(e.next, depth, limits)
  }

  predicate Outcome(r: Scan<()>, fault: Option<Code>, rest: seq<Byte>) {
    if fault.None? then r == Good((), rest) else r.Bad? && r.code == fault.value
  }

  // ---- no fault is being allowed ---------------------------------------------------

  lemma {:induction false} FaultlessIsAllowed(t: Json, depth: nat, limits: Limits)
    requires t.Valid()
    ensures Fault(t, depth, limits).None? <==> Allowed(t, depth, limits)
    decreases t
  {
    match t
    case Object(space, members) =>
      AllowedObject(space, members, depth, limits);
      hide AllowedMembers, Allowed;
      if members.Member? { FaultlessMembers(members, depth, limits); }
    case Array(space, elements) =>
      AllowedArray(space, elements, depth, limits);
      hide AllowedElements, Allowed;
      if elements.Element? { FaultlessElements(elements, depth, limits); }
    case _ =>
      hide Items.Meaning;
  }

  lemma AllowedObject(space: seq<Byte>, m: Members, depth: nat, limits: Limits)
    requires Object(space, m).Valid()
    ensures Allowed(Object(space, m), depth, limits)
       <==> depth <= limits.maxDepth && (m.Member? ==> AllowedMembers(m, depth, limits))
  {
    hide Members.Valid;
    if m.NoMembers? { assert m.Depth() == 0 && m.Within(limits.maxString, limits.fits); }
  }

  lemma AllowedArray(space: seq<Byte>, e: Elements, depth: nat, limits: Limits)
    requires Array(space, e).Valid()
    ensures Allowed(Array(space, e), depth, limits)
       <==> depth <= limits.maxDepth && (e.Element? ==> AllowedElements(e, depth, limits))
  {
    hide Elements.Valid;
    if e.NoElements? { assert e.Depth() == 0 && e.Within(limits.maxString, limits.fits); }
  }

  lemma AllowedParts(m: Members, depth: nat, limits: Limits)
    requires m.Member? && m.Valid()
    ensures AllowedMembers(m, depth, limits)
       <==> && |m.key.Meaning()| <= limits.maxString && Allowed(m.value, depth + 1, limits)
            && (m.next.Member? ==> AllowedMembers(m.next, depth, limits))
  {
    hide Items.Meaning;
    assert m.next.NoMembers? ==> m.next.Within(limits.maxString, limits.fits) && m.next.Depth() == 0;
    hide Json.Valid, Json.Within, Items.Valid;
  }

  lemma AllowedElementParts(e: Elements, depth: nat, limits: Limits)
    requires e.Element? && e.Valid()
    ensures AllowedElements(e, depth, limits)
       <==> Allowed(e.value, depth + 1, limits) && (e.next.Element? ==> AllowedElements(e.next, depth, limits))
  {
    assert e.next.NoElements? ==> e.next.Within(limits.maxString, limits.fits) && e.next.Depth() == 0;
    hide Json.Valid, Json.Within;
  }

  lemma {:induction false} FaultlessMembers(m: Members, depth: nat, limits: Limits)
    requires m.Member? && m.Valid()
    ensures FaultInMembers(m, depth, limits).None? <==> AllowedMembers(m, depth, limits)
    decreases m
  {
    AllowedParts(m, depth, limits);
    hide Allowed, AllowedMembers, Fault, Items.Meaning;
    FaultlessIsAllowed(m.value, depth + 1, limits);
    if m.next.Member? {
      FaultlessMembers(m.next, depth, limits);
    } else {
      NoFaultInNothing(depth, limits);
    }
  }

  lemma NoFaultInNothing(depth: nat, limits: Limits)
    ensures FaultInMembers(NoMembers, depth, limits).None? && FaultInElements(NoElements, depth, limits).None?
  {
  }

  lemma {:induction false} FaultlessElements(e: Elements, depth: nat, limits: Limits)
    requires e.Element? && e.Valid()
    ensures FaultInElements(e, depth, limits).None? <==> AllowedElements(e, depth, limits)
    decreases e
  {
    AllowedElementParts(e, depth, limits);
    hide Allowed, AllowedElements, Fault;
    FaultlessIsAllowed(e.value, depth + 1, limits);
    if e.next.Element? {
      FaultlessElements(e.next, depth, limits);
    } else {
      NoFaultInNothing(depth, limits);
    }
  }

  // ---- what is read ----------------------------------------------------------------

  lemma DeepIsRefused(s: seq<Byte>, depth: nat, limits: Limits)
    requires depth > limits.maxDepth
    ensures ScanValue(s, depth, limits) == Bad(NestingTooDeep, s)
  {
  }

  lemma TextOutcome(items: Items, rest: seq<Byte>, depth: nat, limits: Limits)
    requires items.Valid() && depth <= limits.maxDepth && |items.Meaning()| > limits.maxString
    ensures Outcome(ScanValue(Text(items).Written() + rest, depth, limits), Some(StringTooLong), rest)
  {
    hide ScanString, ScanNumber, ScanExact, SkipSpace, ScanMembers, ScanElements, Expect, WrittenString, Items.Meaning;
    var s := WrittenString(items) + rest;
    FirstByte(Text(items), rest);
    NothingToSkip(s);
    assert [] + WrittenString(items) == WrittenString(items);
    StringIsRead([], items, rest, limits.maxString);
  }

  lemma NumOutcome(n: Number, rest: seq<Byte>, depth: nat, limits: Limits)
    requires n.Valid() && n.EndsBefore(rest) && depth <= limits.maxDepth && !limits.fits(n)
    ensures Outcome(ScanValue(Num(n).Written() + rest, depth, limits), Some(MalformedJson), rest)
  {
    hide ScanString, ScanNumber, ScanExact, SkipSpace, ScanMembers, ScanElements, Expect, Number.Written;
    var s := n.Written() + rest;
    FirstByte(Num(n), rest);
    NothingToSkip(s);
    assert [] + n.Written() == n.Written();
    NumberIsRead([], n, rest, limits.fits);
  }

  /** For every value of the grammar, at every level: success exactly within the limits, and
      otherwise the code of the first fault. */
  lemma {:induction false} ValueOutcome(t: Json, rest: seq<Byte>, depth: nat, limits: Limits)
    requires t.Valid() && t.EndsBefore(rest)
    ensures Outcome(ScanValue(t.Written() + rest, depth, limits), Fault(t, depth, limits), rest)
    decreases t, 1
  {
    hide ScanValue, Json.Written, Json.EndsBefore, Items.Meaning;
    FaultlessIsAllowed(t, depth, limits);
    if Fault(t, depth, limits).None? {
      ValueIsRead(t, rest, depth, limits);
    } else if depth > limits.maxDepth {
      DeepIsRefused(t.Written() + rest, depth, limits);
    } else {
      match t
      case Text(items) => TextOutcome(items, rest, depth, limits);
      case Num(n) => assert n.EndsBefore(rest) by { NumEnds(n, rest); } NumOutcome(n, rest, depth, limits);
      case Object(space, members) => ObjectOutcome(space, members, rest, depth, limits);
      case Array(space, elements) => ArrayOutcome(space, elements, rest, depth, limits);
    }
  }

  lemma NumEnds(n: Number, rest: seq<Byte>)
    requires Num(n).EndsBefore(rest)
    ensures n.EndsBefore(rest)
  {
  }

  lemma {:induction false} ObjectOutcome(space: seq<Byte>, members: Members, rest: seq<Byte>, depth: nat, limits: Limits)
    requires Object(space, members).Valid() && depth <= limits.maxDepth && members.Member?
    ensures Outcome(ScanValue(Object(space, members).Written() + rest, depth, limits), FaultInMembers(members, depth, limits), rest)
    decreases members, 1
  {
    hide ScanMembers, ScanElements, Expect, SkipSpace, Members.Written, FaultInMembers;
    var s, body := Object(space, members).Written() + rest, members.Written() + rest;
    NothingToSkip(s);
    assert s[1..] == body;
    MembersOutcome(members, rest, depth, limits);
    MembersStart(members, rest);
    SpaceBeforeMembers(Skipped(body), SkipSpace(body), depth, limits);
    SkippedIs(body);
  }

  lemma {:induction false} ArrayOutcome(space: seq<Byte>, elements: Elements, rest: seq<Byte>, depth: nat, limits: Limits)
    requires Array(space, elements).Valid() && depth <= limits.maxDepth && elements.Element?
    ensures Outcome(ScanValue(Array(space, elements).Written() + rest, depth, limits), FaultInElements(elements, depth, limits), rest)
    decreases elements, 1
  {
    hide ScanMembers, ScanElements, Expect, SkipSpace, Elements.Written, FaultInElements;
    var s, body := Array(space, elements).Written() + rest, elements.Written() + rest;
    NothingToSkip(s);
    assert s[1..] == body;
    ElementsOutcome(elements, rest, depth, limits);
    ElementsStart(elements, rest);
    SkippedIs(body);
    SpaceOrDepth(Skipped(body), SkipSpace(body), depth, limits);
  }

  /** White space in front of elements makes no difference to the outcome, too deep or not. */
  lemma SpaceOrDepth(w: seq<Byte>, s: seq<Byte>, depth: nat, limits: Limits)
    requires IsWhitespace(w)
    ensures ScanElements(w + s, depth, limits).Bad? == ScanElements(s, depth, limits).Bad?
    ensures ScanElements(s, depth, limits).Bad? ==> ScanElements(w + s, depth, limits).code == ScanElements(s, depth, limits).code
    ensures ScanElements(s, depth, limits).Good? ==> ScanElements(w + s, depth, limits) == ScanElements(s, depth, limits)
  {
    if depth < limits.maxDepth {
      SpaceBeforeElements(w, s, depth, limits);
    }
    hide Expect;
  }

  lemma {:induction false} MembersOutcome(m: Members, rest: seq<Byte>, depth: nat, limits: Limits)
    requires m.Member? && m.Valid()
    ensures Outcome(ScanMembers(m.Written() + rest, depth, limits), FaultInMembers(m, depth, limits), rest)
    decreases m, 0
  {
    hide ScanValue, ScanString, Expect, WrittenString, Json.Written, Members.Written, Fault, Items.Meaning;
    var behind := BehindMember(m, rest);
    var value := m.before + m.value.Written() + behind;
    MemberInParts(m, rest);
    StringIsRead(m.space, m.key, m.colon + ([58] + value), limits.maxString);
    ExpectedIsRead(m.colon, 58, value);
    Join(m.before, m.value.Written(), behind);
    if m.next.NoMembers? {
      PunctuationEnds(m.value, m.after, 125, rest);
      ExpectedIsRead(m.after, 125, rest);
    } else {
      PunctuationEnds(m.value, m.after, 44, m.next.Written() + rest);
      ExpectedIsRead(m.after, 44, m.next.Written() + rest);
      MembersOutcome(m.next, rest, depth, limits);
    }
    ValueOutcome(m.value, behind, depth + 1, limits);
    SpaceBeforeOutcome(m.before, m.value.Written() + behind, depth + 1, limits);
  }

  lemma SpaceBeforeOutcome(w: seq<Byte>, s: seq<Byte>, depth: nat, limits: Limits)
    requires IsWhitespace(w)
    ensures ScanValue(w + s, depth, limits).Bad? == ScanValue(s, depth, limits).Bad?
    ensures ScanValue(s, depth, limits).Bad? ==> ScanValue(w + s, depth, limits).code == ScanValue(s, depth, limits).code
    ensures ScanValue(s, depth, limits).Good? ==> ScanValue(w + s, depth, limits) == ScanValue(s, depth, limits)
  {
    hide ScanValue;
    if depth <= limits.maxDepth {
      SpaceBeforeValue(w, s, depth, limits);
    } else {
      DeepIsRefused(s, depth, limits);
      DeepIsRefused(w + s, depth, limits);
    }
  }

  lemma {:induction false} ElementsOutcome(e: Elements, rest: seq<Byte>, depth: nat, limits: Limits)
    requires e.Element? && e.Valid()
    ensures Outcome(ScanElements(e.Written() + rest, depth, limits), FaultInElements(e, depth, limits), rest)
    decreases e, 0
  {
    hide ScanValue, Expect, Json.Written, Elements.Written, Fault;
    var behind := BehindElement(e, rest);
    ElementInParts(e, rest);
    Join(e.space, e.value.Written(), behind);
    if e.next.NoElements? {
      PunctuationEnds(e.value, e.after, 93, rest);
      ExpectedIsRead(e.after, 93, rest);
    } else {
      PunctuationEnds(e.value, e.after, 44, e.next.Written() + rest);
      ExpectedIsRead(e.after, 44, e.next.Written() + rest);
      ElementsOutcome(e.next, rest, depth, limits);
    }
    ValueOutcome(e.value, behind, depth + 1, limits);
    SpaceBeforeOutcome(e.space, e.value.Written() + behind, depth + 1, limits);
  }
}
