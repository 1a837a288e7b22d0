/** What the metadata reader extracts: the scan of the root object and its `metadata` object,
    and the fold of the recognised members it amounts to on well-formed typed input. */
module NamMetadata {
  import opened Options
  import opened Bytes
  import opened JsonGrammar
  import opened JsonScan
  import opened JsonStrings
  import opened JsonNumbers
  import opened JsonExactness

  datatype TextField = Name | ModeledBy | GearMake | GearModel | GearType | ToneType

  datatype LevelField = InputLevel | OutputLevel

  const DEFAULT_RATE: real := 48000.0

  /** The optional fields are maps from the field to its value. */
  datatype Metadata = Metadata(version: seq<Byte>, architecture: seq<Byte>, rate: real, rateDeclared: bool,
                               texts: map<TextField, seq<Byte>>, levels: map<LevelField, real>)

  const EMPTY: Metadata := Metadata([], [], DEFAULT_RATE, false, map[], map[])

  /** The limits, and what a number converts to. */
  datatype Reader = Reader(limits: Limits, convert: Number -> real)

  function Ascii(s: string): (r: seq<Byte>)
    ensures |r| == |s|
  {
    seq(|s|, i requires 0 <= i < |s| => s[i] as int % 256)
  }

  function TextFieldOf(key: seq<Byte>): Option<TextField> {
    if key == Ascii("name") then Some(Name)
    else if key == Ascii("modeled_by") then Some(ModeledBy)
    else if key == Ascii("gear_make") then Some(GearMake)
    else if key == Ascii("gear_model") then Some(GearModel)
    else if key == Ascii("gear_type") then Some(GearType)
    else if key == Ascii("tone_type") then Some(ToneType)
    else None
  }

  function LevelFieldOf(key: seq<Byte>): Option<LevelField> {
    if key == Ascii("input_level_dbu") then Some(InputLevel)
    else if key == Ascii("output_level_dbu") then Some(OutputLevel)
    else None
  }

  datatype RootKey = Version | Architecture | SampleRate | MetadataKey | OtherKey

  function RootKeyOf(key: seq<Byte>): RootKey {
    if key == Ascii("version") then Version
    else if key == Ascii("architecture") then Architecture
    else if key == Ascii("sample_rate") then SampleRate
    else if key == Ascii("metadata") then MetadataKey
    else OtherKey
  }

  function WithText(m: Metadata, f: TextField, v: Option<seq<Byte>>): Metadata {
    m.(texts := if v.Some? then m.texts[f := v.value] else m.texts - {f})
  }

  function WithLevel(m: Metadata, f: LevelField, v: Option<real>): Metadata {
    m.(levels := if v.Some? then m.levels[f := v.value] else m.levels - {f})
  }

  // ---- typed values ----------------------------------------------------------------

  function ScanRequiredText(s: seq<Byte>, max: nat): (r: Scan<seq<Byte>>)
    ensures |r.rest| <= |s| && (r.Good? ==> |r.rest| < |s|)
  {
    var t := SkipSpace(s);
    if t == [] || t[0] != QUOTE then Bad(MalformedJson, t) else ScanString(t, max)
  }

  /** As much of a word as is there. What matched is read even if the rest does not. */
  function MatchWord(s: seq<Byte>, word: seq<Byte>): (r: (bool, seq<Byte>))
    ensures |r.1| <= |s| && (r.0 ==> |r.1| + |word| == |s|)
  {
    if word == [] then (true, s)
    else if s != [] && s[0] == word[0] then MatchWord(s[1..], word[1..])
    else (false, s)
  }

  function ScanOptionalText(s: seq<Byte>, max: nat): (r: Scan<Option<seq<Byte>>>)
    ensures |r.rest| <= |s| && (r.Good? ==> |r.rest| < |s|)
  {
    var (isNull, t) := MatchWord(SkipSpace(s), Null.Written());
    if isNull then Good(None, t)
    else if t == [] || t[0] != QUOTE then Bad(MalformedJson, t)
    else
      var text := ScanString(t, max);
      if text.Good? then Good(Some(text.value), text.rest) else Bad(text.code, text.rest)
  }

  function ScanOptionalLevel(s: seq<Byte>, reader: Reader): (r: Scan<Option<real>>)
    ensures |r.rest| <= |s| && (r.Good? ==> |r.rest| < |s|)
  {
    var (isNull, t) := MatchWord(SkipSpace(s), Null.Written());
    if isNull then Good(None, t)
    else
      var number := ScanNumber(t, reader.limits.fits);
      if number.Good? then Good(Some(reader.convert(number.value)), number.rest) else Bad(number.code, number.rest)
  }

  function ScanRate(s: seq<Byte>, reader: Reader): (r: Scan<real>)
    ensures |r.rest| <= |s| && (r.Good? ==> |r.rest| < |s|)
  {
    var number := ScanNumber(s, reader.limits.fits);
    if number.Bad? then Bad(number.code, number.rest)
    else if reader.convert(number.value) <= 0.0 then Bad(MalformedJson, number.rest)
    else Good(reader.convert(number.value), number.rest)
  }

  // ---- the metadata object ---------------------------------------------------------

  /** The value of a metadata member. */
  function ScanMetaValue(s: seq<Byte>, key: seq<Byte>, m: Metadata, depth: nat, reader: Reader): (r: Scan<Metadata>)
    ensures |r.rest| <= |s| && (r.Good? ==> |r.rest| < |s|)
  {
    if TextFieldOf(key).Some? then
      var v := ScanOptionalText(s, reader.limits.maxString);
      if v.Good? then Good(WithText(m, TextFieldOf(key).value, v.value), v.rest) else Bad(v.code, v.rest)
    else if LevelFieldOf(key).Some? then
      var v := ScanOptionalLevel(s, reader);
      if v.Good? then Good(WithLevel(m, LevelFieldOf(key).value, v.value), v.rest) else Bad(v.code, v.rest)
    else
      var v := ScanValue(s, depth + 1, reader.limits);
      if v.Good? then Good(m, v.rest) else Bad(v.code, v.rest)
  }

  /** A key and its colon. */
  function ScanKey(s: seq<Byte>, max: nat): (r: Scan<seq<Byte>>)
    ensures |r.rest| <= |s| && (r.Good? ==> |r.rest| < |s|)
  {
    var key := ScanString(s, max);
    if key.Bad? then key
    else
      var colon := Expect(key.rest, 58);
      if colon.Good? then Good(key.value, colon.rest) else Bad(colon.code, colon.rest)
  }

  function ScanMetaMembers(s: seq<Byte>, m: Metadata, depth: nat, reader: Reader): (r: Scan<Metadata>)
    ensures |r.rest| <= |s| && (r.Good? ==> |r.rest| < |s|)
    decreases |s|
  {
    var key := ScanKey(s, reader.limits.maxString);
    if key.Bad? then Bad(key.code, key.rest)
    else
      var value := ScanMetaValue(key.rest, key.value, m, depth, reader);
      if value.Bad? then value
      else if Expect(value.rest, 125).Good? then Good(value.value, Expect(value.rest, 125).rest)
      else
        var comma := Expect(value.rest, 44);
        if comma.Bad? then Bad(comma.code, comma.rest) else ScanMetaMembers(comma.rest, value.value, depth, reader)
  }

  function ScanMetaObject(s: seq<Byte>, m: Metadata, depth: nat, reader: Reader): (r: Scan<Metadata>)
    ensures |r.rest| <= |s| && (r.Good? ==> |r.rest| < |s|)
  {
    if depth > reader.limits.maxDepth then Bad(NestingTooDeep, s)
    else
      var open := Expect(s, 123);
      if open.Bad? then Bad(open.code, open.rest)
      else if Expect(open.rest, 125).Good? then Good(m, Expect(open.rest, 125).rest)
      else ScanMetaMembers(SkipSpace(open.rest), m, depth, reader)
  }

  // ---- the root object -------------------------------------------------------------

  function ScanRootValue(s: seq<Byte>, key: seq<Byte>, m: Metadata, depth: nat, reader: Reader): (r: Scan<Metadata>)
    ensures |r.rest| <= |s| && (r.Good? ==> |r.rest| < |s|)
  {
    match RootKeyOf(key)
    case Version =>
      var v := ScanRequiredText(s, reader.limits.maxString);
      if v.Good? then Good(m.(version := v.value), v.rest) else Bad(v.code, v.rest)
    case Architecture =>
      var v := ScanRequiredText(s, reader.limits.maxString);
      if v.Good? then Good(m.(architecture := v.value), v.rest) else Bad(v.code, v.rest)
    case SampleRate =>
      var v := ScanRate(s, reader);
      if v.Good? then Good(m.(rate := v.value, rateDeclared := true), v.rest) else Bad(v.code, v.rest)
    case MetadataKey => ScanMetaObject(s, m, depth + 1, reader)
    case OtherKey =>
      var v := ScanValue(s, depth + 1, reader.limits);
      if v.Good? then Good(m, v.rest) else Bad(v.code, v.rest)
  }

  function ScanRootMembers(s: seq<Byte>, m: Metadata, depth: nat, reader: Reader): (r: Scan<Metadata>)
    ensures |r.rest| <= |s| && (r.Good? ==> |r.rest| < |s|)
    decreases |s|
  {
    var key := ScanKey(s, reader.limits.maxString);
    if key.Bad? then Bad(key.code, key.rest)
    else
      var value := ScanRootValue(key.rest, key.value, m, depth, reader);
      if value.Bad? then value
      else if Expect(value.rest, 125).Good? then Good(value.value, Expect(value.rest, 125).rest)
      else
        var comma := Expect(value.rest, 44);
        if comma.Bad? then Bad(comma.code, comma.rest) else ScanRootMembers(comma.rest, value.value, depth, reader)
  }

  function ScanRoot(s: seq<Byte>, depth: nat, reader: Reader): (r: Scan<Metadata>)
    ensures |r.rest| <= |s|
  {
    if depth > reader.limits.maxDepth then Bad(NestingTooDeep, s)
    else if Expect(s, 125).Good? then Good(EMPTY, Expect(s, 125).rest)
    else ScanRootMembers(SkipSpace(s), EMPTY, depth, reader)
  }

  /** The whole file. */
  function ScanDocument(s: seq<Byte>, reader: Reader): Scan<Metadata> {
    var open := Expect(s, 123);
    if open.Bad? then Bad(open.code, open.rest)
    else
      var root := ScanRoot(open.rest, 1, reader);
      if root.Bad? then root
      else
        var behind := SkipSpace(root.rest);
        if behind != [] then Bad(MalformedJson, behind)
        else if root.value.version == [] || root.value.architecture == [] then Bad(MissingRequiredField, behind)
        else Good(root.value, behind)
  }
}
