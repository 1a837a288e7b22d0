/** What does not matter to the metadata reader: the order of members with different keys, what
    stands where a value is skipped, and every occurrence of a member but the last. */
module NamMetadataOrder {
  import opened Options
  import opened Bytes
  import opened JsonGrammar
  import opened JsonScan
  import opened JsonExactness
  import opened NamMetadata
  import opened NamMetadataFold

  // ---- steps of different members --------------------------------------------------

  /** Folding the metadata object touches only texts and levels. */
  lemma {:induction false} FoldMetaTouches(facts: seq<Fact>, m: Metadata, version: seq<Byte>, architecture: seq<Byte>,
                                           rate: real, declared: bool, reader: Reader)
    ensures FoldMeta(facts, m.(version := version, architecture := architecture, rate := rate, rateDeclared := declared), reader)
            == FoldMeta(facts, m, reader).(version := version, architecture := architecture, rate := rate, rateDeclared := declared)
    ensures FoldMeta(facts, m, reader).version == m.version && FoldMeta(facts, m, reader).architecture == m.architecture
    ensures FoldMeta(facts, m, reader).rate == m.rate && FoldMeta(facts, m, reader).rateDeclared == m.rateDeclared
    decreases |facts|
  {
    if facts != [] {
      FoldMetaTouches(facts[1..], MetaStep(m, facts[0], reader), version, architecture, rate, declared, reader);
      hide TextFieldOf, LevelFieldOf;
    }
  }

  /** Members with different keys may change places. */
  lemma DistinctKeysCommute(x: Fact, y: Fact, m: Metadata, reader: Reader)
    requires x.key != y.key
    ensures RootStep(RootStep(m, x, reader), y, reader) == RootStep(RootStep(m, y, reader), x, reader)
  {
    assert RootKeyOf(x.key) == RootKeyOf(y.key) ==> RootKeyOf(x.key) == OtherKey;
    hide RootKeyOf, FoldMeta;
    if x.value.ObjectFact? {
      var n := RootStep(m, y, reader);
      FoldMetaTouches(x.value.facts, m, n.version, n.architecture, n.rate, n.rateDeclared, reader);
    }
    if y.value.ObjectFact? {
      var n := RootStep(m, x, reader);
      FoldMetaTouches(y.value.facts, m, n.version, n.architecture, n.rate, n.rateDeclared, reader);
    }
  }

  lemma TextsCommute(m: Metadata, f: TextField, u: Option<seq<Byte>>, g: TextField, v: Option<seq<Byte>>)
    requires f != g
    ensures WithText(WithText(m, f, u), g, v) == WithText(WithText(m, g, v), f, u)
  {
    assert WithText(WithText(m, f, u), g, v).texts == WithText(WithText(m, g, v), f, u).texts;
  }

  lemma LevelsCommute(m: Metadata, f: LevelField, u: Option<real>, g: LevelField, v: Option<real>)
    requires f != g
    ensures WithLevel(WithLevel(m, f, u), g, v) == WithLevel(WithLevel(m, g, v), f, u)
  {
    assert WithLevel(WithLevel(m, f, u), g, v).levels == WithLevel(WithLevel(m, g, v), f, u).levels;
  }

  function TextOf(f: Fact): Option<seq<Byte>> { if f.value.TextFact? then Some(f.value.bytes) else None }

  function LevelOf(f: Fact, reader: Reader): Option<real> {
    if f.value.NumberFact? then Some(reader.convert(f.value.number)) else None
  }

  /** The same inside the metadata object. */
  lemma DistinctMetaKeysCommute(x: Fact, y: Fact, m: Metadata, reader: Reader)
    requires x.key != y.key
    ensures MetaStep(MetaStep(m, x, reader), y, reader) == MetaStep(MetaStep(m, y, reader), x, reader)
  {
    assert TextFieldOf(x.key).Some? ==> TextFieldOf(x.key) != TextFieldOf(y.key);
    assert LevelFieldOf(x.key).Some? ==> LevelFieldOf(x.key) != LevelFieldOf(y.key);
    hide TextFieldOf, LevelFieldOf, WithText, WithLevel;
    var tx, ty, lx, ly := TextFieldOf(x.key), TextFieldOf(y.key), LevelFieldOf(x.key), LevelFieldOf(y.key);
    if tx.Some? && ty.Some? {
      TextsCommute(m, tx.value, TextOf(x), ty.value, TextOf(y));
    } else if tx.Some? && ly.Some? {
    } else if lx.Some? && ty.Some? {
    } else if lx.Some? && ly.Some? {
      LevelsCommute(m, lx.value, LevelOf(x, reader), ly.value, LevelOf(y, reader));
    }
  }

  // ---- folds and their order -------------------------------------------------------

  type Step = (Metadata, Fact) -> Metadata

  /** When two facts may stand for each other. */
  type Likeness = (Fact, Fact) -> bool

  function Fold(step: Step, facts: seq<Fact>, m: Metadata): Metadata {
    if facts == [] then m else Fold(step, facts[1..], step(m, facts[0]))
  }

  ghost predicate Commutes(step: Step) {
    forall x: Fact, y: Fact, m :: x.key != y.key ==> step(step(m, x), y) == step(step(m, y), x)
  }

  ghost predicate Respects(step: Step, like: Likeness) {
    forall x: Fact, y: Fact :: like(x, y) ==> x.key == y.key && forall m :: step(m, x) == step(m, y)
  }

  /** The facts with a key, in order. */
  function OfKey(facts: seq<Fact>, key: seq<Byte>): seq<Fact> {
    if facts == [] then []
    else (if facts[0].key == key then [facts[0]] else []) + OfKey(facts[1..], key)
  }

  predicate AllLike(a: seq<Fact>, b: seq<Fact>, like: Likeness) {
    |a| == |b| && forall i :: 0 <= i < |a| ==> like(a[i], b[i])
  }

  /** For every key, the two say the same in the same order. */
  ghost predicate SameByKey(a: seq<Fact>, b: seq<Fact>, like: Likeness) {
    forall key :: AllLike(OfKey(a, key), OfKey(b, key), like)
  }

  lemma {:induction false} FoldJoins(step: Step, a: seq<Fact>, b: seq<Fact>, m: Metadata)
    ensures Fold(step, a + b, m) == Fold(step, b, Fold(step, a, m))
    decreases |a|
  {
    if a == [] {
      assert a + b == b;
    } else {
      assert (a + b)[1..] == a[1..] + b;
      FoldJoins(step, a[1..], b, step(m, a[0]));
    }
  }

  lemma {:induction false} OfKeyJoins(a: seq<Fact>, b: seq<Fact>, key: seq<Byte>)
    ensures OfKey(a + b, key) == OfKey(a, key) + OfKey(b, key)
    decreases |a|
  {
    if a == [] {
      assert a + b == b;
    } else {
      assert (a + b)[1..] == a[1..] + b;
      var first := if a[0].key == key then [a[0]] else [];
      assert OfKey(a, key) == first + OfKey(a[1..], key) && OfKey(a + b, key) == first + OfKey(a[1..] + b, key);
      hide OfKey;
      OfKeyJoins(a[1..], b, key);
      Grouped(first, OfKey(a[1..], key), OfKey(b, key));
    }
  }

  lemma Grouped(a: seq<Fact>, b: seq<Fact>, c: seq<Fact>)
    ensures a + b + c == a + (b + c)
  {
  }

  lemma {:induction false} MovesToFront(step: Step, before: seq<Fact>, x: Fact, m: Metadata)
    requires Commutes(step) && OfKey(before, x.key) == []
    ensures Fold(step, before + [x], m) == Fold(step, before, step(m, x))
    decreases |before|
  {
    if before == [] {
      assert [] + [x] == [x];
      assert Fold(step, [x][1..], step(m, x)) == step(m, x);
    } else {
      assert (before + [x])[1..] == before[1..] + [x];
      MovesToFront(step, before[1..], x, step(m, before[0]));
    }
  }

  lemma {:induction false} FirstOfKey(b: seq<Fact>, key: seq<Byte>) returns (i: nat)
    requires OfKey(b, key) != []
    ensures i < |b| && b[i].key == key && OfKey(b[..i], key) == [] && b == b[..i] + [b[i]] + b[i + 1..]
    decreases |b|
  {
    if b[0].key == key {
      i := 0;
    } else {
      var j := FirstOfKey(b[1..], key);
      i := j + 1;
      assert b[..i] == [b[0]] + b[1..][..j];
      OfKeyJoins([b[0]], b[1..][..j], key);
    }
  }

  /** Taking one fact out of both sides. */
  lemma SameWithout(x: Fact, a: seq<Fact>, left: seq<Fact>, y: Fact, right: seq<Fact>, like: Likeness)
    requires SameByKey([x] + a, left + [y] + right, like) && x.key == y.key && OfKey(left, y.key) == []
    ensures SameByKey(a, left + right, like) && like(x, y)
  {
    hide OfKey, AllLike;
    WithoutFirst(x, a, left, y, right, x.key, like);
    forall key
      ensures AllLike(OfKey(a, key), OfKey(left + right, key), like)
    {
      WithoutFirst(x, a, left, y, right, key, like);
    }
  }

  lemma WithoutFirst(x: Fact, a: seq<Fact>, left: seq<Fact>, y: Fact, right: seq<Fact>, key: seq<Byte>, like: Likeness)
    requires AllLike(OfKey([x] + a, key), OfKey(left + [y] + right, key), like)
    requires x.key == y.key && OfKey(left, y.key) == []
    ensures AllLike(OfKey(a, key), OfKey(left + right, key), like) && (key == x.key ==> like(x, y))
  {
    OfOneMore([], x, a, key);
    OfOneMore(left, y, right, key);
    assert [] + [x] + a == [x] + a && [] + a == a;
    hide AllLike;
    if key == x.key {
      hide OfKey;
      TailsAlike(x, OfKey(a, key), y, OfKey(left + right, key), like);
    }
  }

  lemma OfOneMore(left: seq<Fact>, y: Fact, right: seq<Fact>, key: seq<Byte>)
    ensures OfKey(left + right, key) == OfKey(left, key) + OfKey(right, key)
    ensures y.key != key ==> OfKey(left + [y] + right, key) == OfKey(left + right, key)
    ensures y.key == key && OfKey(left, key) == [] ==> OfKey(left + [y] + right, key) == [y] + OfKey(left + right, key)
  {
    OfKeyJoins(left + [y], right, key);
    OfKeyJoins(left, [y], key);
    OfKeyJoins(left, right, key);
    OfOne(y, key);
    hide OfKey;
    var before, behind := OfKey(left, key), OfKey(right, key);
    if y.key != key {
      assert before + [] == before;
    } else if before == [] {
      assert [] + [y] == [y] && [] + behind == behind;
    }
  }

  lemma OfOne(y: Fact, key: seq<Byte>)
    ensures OfKey([y], key) == if y.key == key then [y] else []
  {
    assert [y][1..] == [];
  }

  lemma TailsAlike(x: Fact, a: seq<Fact>, y: Fact, b: seq<Fact>, like: Likeness)
    requires AllLike([x] + a, [y] + b, like)
    ensures like(x, y) && AllLike(a, b, like)
  {
    assert like(([x] + a)[0], ([y] + b)[0]);
    forall i | 0 <= i < |a|
      ensures like(a[i], b[i])
    {
      assert like(([x] + a)[i + 1], ([y] + b)[i + 1]);
    }
  }

  /** A fold whose steps commute for different keys sees only what each key says, in order. */
  lemma {:induction false} SameFold(step: Step, like: Likeness, a: seq<Fact>, b: seq<Fact>, m: Metadata)
    requires Commutes(step) && Respects(step, like) && SameByKey(a, b, like)
    ensures Fold(step, a, m) == Fold(step, b, m)
    decreases |a|
  {
    if a == [] {
      assert b != [] ==> AllLike(OfKey(a, b[0].key), OfKey(b, b[0].key), like);
    } else {
      var x, rest := a[0], a[1..];
      assert AllLike(OfKey(a, x.key), OfKey(b, x.key), like);
      var i := FirstOfKey(b, x.key);
      var left, y, right := b[..i], b[i], b[i + 1..];
      hide OfKey;
      assert a == [x] + rest;
      SameWithout(x, rest, left, y, right, like);
      SameFold(step, like, rest, left + right, step(m, x));
      FoldJoins(step, left, right, step(m, y));
      FoldJoins(step, left + [y], right, m);
      MovesToFront(step, left, y, m);
    }
  }

  // ---- order does not matter -------------------------------------------------------

  ghost predicate SameMeta(a: seq<Fact>, b: seq<Fact>) { forall key :: OfKey(a, key) == OfKey(b, key) }

  /** The same fact, or metadata objects that say the same for every key. */
  ghost predicate Alike(x: Fact, y: Fact) {
    || x == y
    || (x.key == y.key && x.value.ObjectFact? && y.value.ObjectFact? && SameMeta(x.value.facts, y.value.facts))
  }

  ghost predicate SameRoot(a: seq<Fact>, b: seq<Fact>) { SameByKey(a, b, (x, y) => Alike(x, y)) }

  lemma {:induction false} MetaIsAFold(step: Step, facts: seq<Fact>, m: Metadata, reader: Reader)
    requires forall n, f :: step(n, f) == MetaStep(n, f, reader)
    ensures FoldMeta(facts, m, reader) == Fold(step, facts, m)
    decreases |facts|
  {
    hide MetaStep;
    if facts != [] { MetaIsAFold(step, facts[1..], MetaStep(m, facts[0], reader), reader); }
  }

  lemma {:induction false} RootIsAFold(step: Step, facts: seq<Fact>, m: Metadata, reader: Reader)
    requires forall n, f :: step(n, f) == RootStep(n, f, reader)
    ensures FoldRoot(facts, m, reader) == Fold(step, facts, m)
    decreases |facts|
  {
    hide RootStep;
    if facts != [] { RootIsAFold(step, facts[1..], RootStep(m, facts[0], reader), reader); }
  }

  /** Inside the metadata object only the order of members with the same key matters. */
  lemma MetaOrderDoesNotMatter(a: seq<Fact>, b: seq<Fact>, m: Metadata, reader: Reader)
    requires SameMeta(a, b)
    ensures FoldMeta(a, m, reader) == FoldMeta(b, m, reader)
  {
    hide MetaStep, OfKey;
    var step: Step := (n, f) => MetaStep(n, f, reader);
    forall x: Fact, y: Fact, n | x.key != y.key
      ensures step(step(n, x), y) == step(step(n, y), x)
    {
      DistinctMetaKeysCommute(x, y, n, reader);
    }
    MetaIsAFold(step, a, m, reader);
    MetaIsAFold(step, b, m, reader);
    var like: Likeness := (x, y) => x == y;
    assert SameByKey(a, b, like);
    SameFold(step, like, a, b, m);
  }

  lemma AlikeSteps(x: Fact, y: Fact, m: Metadata, reader: Reader)
    requires Alike(x, y)
    ensures x.key == y.key && RootStep(m, x, reader) == RootStep(m, y, reader)
  {
    hide FoldMeta, RootKeyOf, SameMeta;
    if x != y { MetaOrderDoesNotMatter(x.value.facts, y.value.facts, m, reader); }
  }

  /** The same for the root, whatever the order within its metadata objects. */
  lemma RootOrderDoesNotMatter(a: seq<Fact>, b: seq<Fact>, m: Metadata, reader: Reader)
    requires SameRoot(a, b)
    ensures FoldRoot(a, m, reader) == FoldRoot(b, m, reader)
    ensures Result(a, reader) == Result(b, reader)
  {
    hide RootStep, OfKey, Alike;
    var step: Step := (n, f) => RootStep(n, f, reader);
    var like: Likeness := (x, y) => Alike(x, y);
    forall x: Fact, y: Fact, n | x.key != y.key
      ensures step(step(n, x), y) == step(step(n, y), x)
    {
      DistinctKeysCommute(x, y, n, reader);
    }
    forall x: Fact, y: Fact | like(x, y)
      ensures x.key == y.key && forall n :: step(n, x) == step(n, y)
    {
      forall n
        ensures x.key == y.key && step(n, x) == step(n, y)
      {
        AlikeSteps(x, y, n, reader);
      }
      AlikeSteps(x, y, m, reader);
    }
    forall n: Metadata
      ensures FoldRoot(a, n, reader) == FoldRoot(b, n, reader)
    {
      RootIsAFold(step, a, n, reader);
      RootIsAFold(step, b, n, reader);
      SameFold(step, like, a, b, n);
    }
  }

  /** Documents that say the same for every key, in any order and any spelling, read the same. */
  lemma OrderDoesNotMatter(before: seq<Byte>, root: Json, behind: seq<Byte>,
                           before': seq<Byte>, root': Json, behind': seq<Byte>, reader: Reader)
    requires TypedDocument(root, before, behind, reader) && TypedDocument(root', before', behind', reader)
    requires SameRoot(RootFacts(root.members), RootFacts(root'.members))
    ensures ScanDocument(before + (root.Written() + behind), reader)
            == ScanDocument(before' + (root'.Written() + behind'), reader)
  {
    DocumentIsAFold(before, root, behind, reader);
    DocumentIsAFold(before', root', behind', reader);
    hide ScanDocument, Json.Written, RootFacts, SameRoot, Result;
    RootOrderDoesNotMatter(RootFacts(root.members), RootFacts(root'.members), EMPTY, reader);
  }

  // ---- skipped values do not matter ------------------------------------------------

  /** The same keys in order, and the same values but where a value is skipped. */
  predicate SameButSkippedMeta(m: Members, n: Members)
    requires m.Valid() && n.Valid()
  {
    if m.NoMembers? || n.NoMembers? then m.NoMembers? && n.NoMembers?
    else
      && m.key.Meaning() == n.key.Meaning()
      && (m.value == n.value || (TextFieldOf(m.key.Meaning()).None? && LevelFieldOf(m.key.Meaning()).None?))
      && SameButSkippedMeta(m.next, n.next)
  }

  predicate SameButSkippedValue(key: seq<Byte>, v: Json, w: Json)
    requires v.Valid() && w.Valid()
  {
    || v == w
    || RootKeyOf(key) == OtherKey
    || (RootKeyOf(key) == MetadataKey && v.Object? && w.Object? && SameButSkippedMeta(v.members, w.members))
  }

  predicate SameButSkipped(m: Members, n: Members)
    requires m.Valid() && n.Valid()
  {
    if m.NoMembers? || n.NoMembers? then m.NoMembers? && n.NoMembers?
    else
      && m.key.Meaning() == n.key.Meaning() && SameButSkippedValue(m.key.Meaning(), m.value, n.value)
      && SameButSkipped(m.next, n.next)
  }

  lemma {:induction false} SameMetaFacts(m: Members, n: Members)
    requires m.Valid() && n.Valid() && SameButSkippedMeta(m, n) && TypedMeta(m)
    ensures MetaFacts(m) == MetaFacts(n) && TypedMeta(n)
    decreases m
  {
    if m.Member? {
      SameMetaFacts(m.next, n.next);
      hide TextFieldOf, LevelFieldOf, Items.Meaning;
    }
  }

  lemma {:induction false} SameRootFacts(m: Members, n: Members, reader: Reader)
    requires m.Valid() && n.Valid() && SameButSkipped(m, n) && TypedRoot(m, reader)
    ensures RootFacts(m) == RootFacts(n) && TypedRoot(n, reader)
    decreases m
  {
    if m.Member? {
      hide RootKeyOf, Items.Meaning, MetaFacts, TypedMeta;
      SameRootFacts(m.next, n.next, reader);
      if m.value != n.value && RootKeyOf(m.key.Meaning()) == MetadataKey {
        SameMetaFacts(m.value.members, n.value.members);
      }
    }
  }

  /** Skipped values anywhere in a document, such as the weights, may be replaced by any others. */
  lemma SkippedValuesDoNotMatter(before: seq<Byte>, root: Json, behind: seq<Byte>,
                                 before': seq<Byte>, root': Json, behind': seq<Byte>, reader: Reader)
    requires TypedDocument(root, before, behind, reader)
    requires IsWhitespace(before') && IsWhitespace(behind') && root'.Object? && Allowed(root', 1, reader.limits)
    requires SameButSkipped(root.members, root'.members)
    ensures ScanDocument(before' + (root'.Written() + behind'), reader)
            == ScanDocument(before + (root.Written() + behind), reader)
  {
    hide ScanDocument, Json.Written, RootFacts, TypedRoot, SameButSkipped;
    SameRootFacts(root.members, root'.members, reader);
    OnlyFactsMatter(before, root, behind, before', root', behind', reader);
  }

  // ---- the last one wins -----------------------------------------------------------

  /** The last fact that is asked for. */
  function Last(facts: seq<Fact>, which: Fact -> bool): Option<Fact> {
    if facts == [] then None
    else if Last(facts[1..], which).Some? then Last(facts[1..], which)
    else if which(facts[0]) then Some(facts[0]) else None
  }

  function LastOf(facts: seq<Fact>, key: RootKey): Option<Fact> { Last(facts, (f: Fact) => RootKeyOf(f.key) == key) }

  function LastText(facts: seq<Fact>, field: TextField): Option<Fact> {
    Last(facts, (f: Fact) => TextFieldOf(f.key) == Some(field))
  }

  function LastLevel(facts: seq<Fact>, field: LevelField): Option<Fact> {
    Last(facts, (f: Fact) => LevelFieldOf(f.key) == Some(field))
  }

  /** The member a field is read from. */
  function TextSpelling(field: TextField): string {
    match field
    case Name => "name"
    case ModeledBy => "modeled_by"
    case GearMake => "gear_make"
    case GearModel => "gear_model"
    case GearType => "gear_type"
    case ToneType => "tone_type"
  }

  function LevelSpelling(field: LevelField): string {
    if field == InputLevel then "input_level_dbu" else "output_level_dbu"
  }

  /** Each field has one spelling, and no other key reaches it. */
  lemma FieldsAreSpelled(key: seq<Byte>)
    ensures forall field: TextField :: TextFieldOf(key) == Some(field) <==> key == Ascii(TextSpelling(field))
    ensures forall field: LevelField :: LevelFieldOf(key) == Some(field) <==> key == Ascii(LevelSpelling(field))
    ensures RootKeyOf(key) == Version <==> key == Ascii("version")
    ensures RootKeyOf(key) == Architecture <==> key == Ascii("architecture")
    ensures RootKeyOf(key) == SampleRate <==> key == Ascii("sample_rate")
    ensures RootKeyOf(key) == MetadataKey <==> key == Ascii("metadata")
  {
    SpellingsDiffer();
    hide Ascii;
  }

  lemma SpellingsDiffer()
    ensures forall f: TextField, g: TextField :: Ascii(TextSpelling(f)) == Ascii(TextSpelling(g)) ==> f == g
    ensures forall f: LevelField, g: LevelField :: Ascii(LevelSpelling(f)) == Ascii(LevelSpelling(g)) ==> f == g
  {
    forall f: TextField, g: TextField | Ascii(TextSpelling(f)) == Ascii(TextSpelling(g))
      ensures f == g
    {
      assert |TextSpelling(f)| == |TextSpelling(g)|;
      assert Ascii(TextSpelling(f))[0] == Ascii(TextSpelling(g))[0];
      assert |TextSpelling(f)| > 5 ==> Ascii(TextSpelling(f))[5] == Ascii(TextSpelling(g))[5];
    }
  }

  /** The facts of a metadata object. */
  function MetaOf(f: Fact): seq<Fact> {
    if RootKeyOf(f.key) == MetadataKey && f.value.ObjectFact? then f.value.facts else []
  }

  /** The facts of all metadata objects, in order. */
  function AllMeta(facts: seq<Fact>): seq<Fact> {
    if facts == [] then [] else MetaOf(facts[0]) + AllMeta(facts[1..])
  }

  predicate WellTyped(facts: seq<Fact>) { forall i :: 0 <= i < |facts| ==> TypedFact(facts[i]) }

  predicate TypedFact(f: Fact) {
    match RootKeyOf(f.key)
    case Version => f.value.TextFact?
    case Architecture => f.value.TextFact?
    case SampleRate => f.value.NumberFact?
    case MetadataKey => f.value.ObjectFact?
    case OtherKey => true
  }

  function TextIn(m: Metadata, field: TextField): Option<seq<Byte>> {
    if field in m.texts then Some(m.texts[field]) else None
  }

  function LevelIn(m: Metadata, field: LevelField): Option<real> {
    if field in m.levels then Some(m.levels[field]) else None
  }

  /** The optional fields of `r` are those of `m`, but for the last fact of each key. */
  ghost predicate MetaIsLast(facts: seq<Fact>, m: Metadata, r: Metadata, reader: Reader) {
    && (forall text: TextField ::
          TextIn(r, text) == if LastText(facts, text).Some? then TextOf(LastText(facts, text).value) else TextIn(m, text))
    && (forall level: LevelField ::
          LevelIn(r, level)
          == if LastLevel(facts, level).Some? then LevelOf(LastLevel(facts, level).value, reader) else LevelIn(m, level))
  }

  lemma {:induction false} LastTextWins(facts: seq<Fact>, m: Metadata, reader: Reader, text: TextField)
    ensures TextIn(FoldMeta(facts, m, reader), text)
            == if LastText(facts, text).Some? then TextOf(LastText(facts, text).value) else TextIn(m, text)
    decreases |facts|
  {
    if facts != [] {
      LastTextWins(facts[1..], MetaStep(m, facts[0], reader), reader, text);
      FirstMetaFact(m, facts[0], reader);
      hide TextFieldOf, LevelFieldOf, MetaStep, TextIn;
    }
  }

  lemma {:induction false} LastLevelWins(facts: seq<Fact>, m: Metadata, reader: Reader, level: LevelField)
    ensures LevelIn(FoldMeta(facts, m, reader), level)
            == if LastLevel(facts, level).Some? then LevelOf(LastLevel(facts, level).value, reader) else LevelIn(m, level)
    decreases |facts|
  {
    if facts != [] {
      LastLevelWins(facts[1..], MetaStep(m, facts[0], reader), reader, level);
      FirstMetaFact(m, facts[0], reader);
      hide TextFieldOf, LevelFieldOf, MetaStep, LevelIn;
    }
  }

  lemma LastMetaWins(facts: seq<Fact>, m: Metadata, reader: Reader)
    ensures MetaIsLast(facts, m, FoldMeta(facts, m, reader), reader)
  {
    hide FoldMeta, LastText, LastLevel, TextIn, LevelIn, TextOf, LevelOf;
    forall text: TextField { LastTextWins(facts, m, reader, text); }
    forall level: LevelField { LastLevelWins(facts, m, reader, level); }
  }

  /** One step sets the field of its key and leaves the others. */
  lemma FirstMetaFact(m: Metadata, f: Fact, reader: Reader)
    ensures forall text: TextField ::
              TextIn(MetaStep(m, f, reader), text) == if TextFieldOf(f.key) == Some(text) then TextOf(f) else TextIn(m, text)
    ensures forall level: LevelField ::
              LevelIn(MetaStep(m, f, reader), level)
              == if LevelFieldOf(f.key) == Some(level) then LevelOf(f, reader) else LevelIn(m, level)
  {
    KeyIsOneField(f.key);
    hide TextFieldOf, LevelFieldOf;
  }

  lemma KeyIsOneField(key: seq<Byte>)
    ensures TextFieldOf(key).None? || LevelFieldOf(key).None?
  {
  }

  lemma {:induction false} MetaFoldsJoin(a: seq<Fact>, b: seq<Fact>, m: Metadata, reader: Reader)
    ensures FoldMeta(a + b, m, reader) == FoldMeta(b, FoldMeta(a, m, reader), reader)
    decreases |a|
  {
    hide MetaStep;
    if a == [] {
      assert a + b == b;
    } else {
      assert (a + b)[1..] == a[1..] + b;
      MetaFoldsJoin(a[1..], b, MetaStep(m, a[0], reader), reader);
    }
  }

  /** Texts and levels are those of the metadata objects read one after the other. */
  lemma {:induction false} RootTexts(facts: seq<Fact>, m: Metadata, n: Metadata, reader: Reader)
    requires m.texts == n.texts && m.levels == n.levels
    ensures FoldRoot(facts, m, reader).texts == FoldMeta(AllMeta(facts), n, reader).texts
    ensures FoldRoot(facts, m, reader).levels == FoldMeta(AllMeta(facts), n, reader).levels
    decreases |facts|
  {
    if facts != [] {
      var first := MetaOf(facts[0]);
      MetaFoldsJoin(first, AllMeta(facts[1..]), n, reader);
      RootStepTexts(facts[0], m, n, reader);
      RootTexts(facts[1..], RootStep(m, facts[0], reader), FoldMeta(first, n, reader), reader);
      hide FoldMeta, RootStep, MetaOf;
    }
  }

  lemma RootStepTexts(f: Fact, m: Metadata, n: Metadata, reader: Reader)
    requires m.texts == n.texts && m.levels == n.levels
    ensures RootStep(m, f, reader).texts == FoldMeta(MetaOf(f), n, reader).texts
    ensures RootStep(m, f, reader).levels == FoldMeta(MetaOf(f), n, reader).levels
  {
    FoldMetaTouches(MetaOf(f), m, n.version, n.architecture, n.rate, n.rateDeclared, reader);
    assert m.(version := n.version, architecture := n.architecture, rate := n.rate, rateDeclared := n.rateDeclared) == n;
    hide RootKeyOf;
  }

  /** The fields of `r` are those of `m`, but for the last fact of each key. */
  predicate RootIsLast(facts: seq<Fact>, m: Metadata, r: Metadata, reader: Reader) {
    var version, architecture, rate := LastOf(facts, Version), LastOf(facts, Architecture), LastOf(facts, SampleRate);
    && (if version.Some? then version.value.value == TextFact(r.version) else r.version == m.version)
    && (if architecture.Some? then architecture.value.value == TextFact(r.architecture) else r.architecture == m.architecture)
    && (if rate.Some? then
          rate.value.value.NumberFact? && r.rate == reader.convert(rate.value.value.number) && r.rateDeclared
        else r.rate == m.rate && r.rateDeclared == m.rateDeclared)
  }

  lemma {:induction false} LastRootWins(facts: seq<Fact>, m: Metadata, reader: Reader)
    requires WellTyped(facts)
    ensures RootIsLast(facts, m, FoldRoot(facts, m, reader), reader)
    decreases |facts|
  {
    if facts != [] {
      var n := RootStep(m, facts[0], reader);
      assert TypedFact(facts[0]);
      FirstRootFact(m, facts[0], reader);
      LastRootWins(facts[1..], n, reader);
      hide RootKeyOf, RootStep, TypedFact, WellTyped;
    }
  }

  /** One step sets the field of its key and leaves the others. */
  lemma FirstRootFact(m: Metadata, f: Fact, reader: Reader)
    requires TypedFact(f)
    ensures var n, key := RootStep(m, f, reader), RootKeyOf(f.key);
            && (if key == Version then f.value == TextFact(n.version) else n.version == m.version)
            && (if key == Architecture then f.value == TextFact(n.architecture) else n.architecture == m.architecture)
            && (if key == SampleRate then f.value.NumberFact? && n.rate == reader.convert(f.value.number) && n.rateDeclared
                else n.rate == m.rate && n.rateDeclared == m.rateDeclared)
  {
    hide RootKeyOf, FoldMeta;
    if f.value.ObjectFact? {
      FoldMetaTouches(f.value.facts, m, m.version, m.architecture, m.rate, m.rateDeclared, reader);
    }
  }

  lemma {:induction false} TypedRootFacts(m: Members, reader: Reader)
    requires m.Valid() && TypedRoot(m, reader)
    ensures WellTyped(RootFacts(m))
    decreases m
  {
    if m.Member? {
      TypedRootFacts(m.next, reader);
      hide Items.Meaning, MetaFacts, TypedMeta;
      assert TypedFact(RootFact(m.key.Meaning(), m.value));
      hide RootFact, TypedFact;
    }
  }

  /** What is read from a typed document: each field is the value of the last member with its
      key, in the root or in any of the metadata objects, and the default if there is none. */
  lemma LastOneWins(before: seq<Byte>, root: Json, behind: seq<Byte>, reader: Reader)
    requires TypedDocument(root, before, behind, reader)
    requires ScanDocument(before + (root.Written() + behind), reader).Good?
    ensures var facts, m := RootFacts(root.members), ScanDocument(before + (root.Written() + behind), reader).value;
            RootIsLast(facts, EMPTY, m, reader) && MetaIsLast(AllMeta(facts), EMPTY, m, reader)
  {
    var facts := RootFacts(root.members);
    DocumentIsAFold(before, root, behind, reader);
    TypedRootFacts(root.members, reader);
    hide ScanDocument, Json.Written, RootFacts, FoldRoot, FoldMeta, MetaIsLast, RootIsLast, TypedDocument, AllMeta;
    LastRootWins(facts, EMPTY, reader);
    RootTexts(facts, EMPTY, EMPTY, reader);
    LastMetaWins(AllMeta(facts), EMPTY, reader);
    SameTexts(AllMeta(facts), EMPTY, FoldMeta(AllMeta(facts), EMPTY, reader), FoldRoot(facts, EMPTY, reader), reader);
  }

  lemma SameTexts(facts: seq<Fact>, m: Metadata, r: Metadata, s: Metadata, reader: Reader)
    requires MetaIsLast(facts, m, r, reader) && r.texts == s.texts && r.levels == s.levels
    ensures MetaIsLast(facts, m, s, reader)
  {
    hide LastText, LastLevel;
    forall text: TextField
      ensures TextIn(r, text) == TextIn(s, text)
    {
    }
    forall level: LevelField
      ensures LevelIn(r, level) == LevelIn(s, level)
    {
    }
  }
}
