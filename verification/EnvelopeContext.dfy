/** Context bytes, additional data and MAC input of a provider envelope
    (hub/src/executor-provider-crypto.ts), and what equal bytes say about their sources. */
module EnvelopeContext {
  import opened Collections
  import opened LengthPrefix
  import opened TextBytes

  const MAX_SAFE_INTEGER: nat := 0x1F_FFFF_FFFF_FFFF
  const MAX_REFERENCES: nat := 64

  datatype SourceIdentity = SourceIdentity(
    partition: Text, account: Text, region: Text, name: Text, version: nat, lifecycleLabel: Text)

  datatype Context = Context(operationId: Text, generation: Text, source: SourceIdentity, targetSetDigest: Text)

  datatype Kind = Source | Kms | Target
  datatype Reference = Reference(kind: Kind, id: Text)

  // ----------------------------------------------------------- validation

  function Literal(s: string): (t: Text)
    requires forall i :: 0 <= i < |s| ==> s[i] < 128 as char
    ensures Ascii(t) && |t| == |s|
  {
    seq(|s|, i requires 0 <= i < |s| => s[i] as int)
  }

  predicate Alphanumeric(u: Unit) {
    0x30 <= u <= 0x39 || 0x41 <= u <= 0x5A || 0x61 <= u <= 0x7A
  }

  /** Dot, hyphen, underscore. */
  predicate LabelUnit(u: Unit) {
    Alphanumeric(u) || u == 0x2E || u == 0x2D || u == 0x5F
  }

  predicate SafeId(s: Text, limit: nat) {
    0 < |s| <= limit && Alphanumeric(s[0]) && forall i :: 0 <= i < |s| ==> LabelUnit(s[i]) || s[i] == 0x3A
  }

  predicate SafeLabel(s: Text) {
    0 < |s| <= 100 && Alphanumeric(s[0]) && forall i :: 0 <= i < |s| ==> LabelUnit(s[i])
  }

  predicate Whitespace(u: Unit) {
    || 0x09 <= u <= 0x0D || u == 0x20 || u == 0xA0 || u == 0x1680 || 0x2000 <= u <= 0x200A
    || u == 0x2028 || u == 0x2029 || u == 0x202F || u == 0x205F || u == 0x3000 || u == 0xFEFF
  }

  /** `readCanonicalText`: nonempty, bounded, trimmed, no control characters. */
  predicate CanonicalText(s: Text, limit: nat) {
    && 0 < |s| <= limit && !Whitespace(s[0]) && !Whitespace(s[|s| - 1])
    && forall i :: 0 <= i < |s| ==> s[i] > 0x1F && s[i] != 0x7F
  }

  /** An absolute parameter path without empty or trailing segments. */
  predicate PathShape(s: Text) {
    && s != [] && s[0] == 0x2F && s[|s| - 1] != 0x2F
    && forall i :: 0 <= i < |s| - 1 ==> s[i] != 0x2F || s[i + 1] != 0x2F
  }

  predicate ValidSource(s: SourceIdentity) {
    && SafeId(s.partition, 64) && SafeId(s.account, 128) && SafeId(s.region, 128)
    && CanonicalText(s.name, 2048) && PathShape(s.name)
    && SafeLabel(s.lifecycleLabel) && 1 <= s.version <= MAX_SAFE_INTEGER
  }

  predicate HexUnit(u: Unit) {
    0x30 <= u <= 0x39 || 0x61 <= u <= 0x66
  }

  predicate Sha256Digest(s: Text) {
    |s| == 71 && s[..7] == Literal("sha256:") && forall i :: 7 <= i < 71 ==> HexUnit(s[i])
  }

  predicate ValidContext(c: Context) {
    SafeId(c.operationId, 256) && SafeId(c.generation, 256) && ValidSource(c.source) && Sha256Digest(c.targetSetDigest)
  }

  predicate SafeReference(s: Text) {
    0 < |s| <= 1024 && forall i :: 0 <= i < |s| ==> 0x21 <= s[i] <= 0x7E
  }

  predicate ValidReferences(references: seq<Reference>) {
    |references| <= MAX_REFERENCES && forall i :: 0 <= i < |references| ==> SafeReference(references[i].id)
  }

  datatype EnvelopeError = InvalidEnvelope | SourceBoundary

  /** `canonicalSourceIdentity`: texts first, then their patterns, the path and the version. */
  function SourceError(s: SourceIdentity): Option<EnvelopeError> {
    if !CanonicalText(s.partition, 64) || !CanonicalText(s.account, 128) || !CanonicalText(s.region, 128)
       || !CanonicalText(s.name, 2048) || !CanonicalText(s.lifecycleLabel, 100) then Some(InvalidEnvelope)
    else if !SafeId(s.partition, 256) || !SafeId(s.account, 256) || !SafeId(s.region, 256)
      || !SafeLabel(s.lifecycleLabel)
    then Some(SourceBoundary)
    else if !PathShape(s.name) then Some(SourceBoundary)
    else if !(1 <= s.version <= MAX_SAFE_INTEGER) then Some(SourceBoundary)
    else None
  }

  /** `createEnvelopeContext`. */
  function ContextError(c: Context): Option<EnvelopeError> {
    if !CanonicalText(c.operationId, 256) || !CanonicalText(c.generation, 256) then Some(InvalidEnvelope)
    else if !SafeId(c.operationId, 256) || !SafeId(c.generation, 256) then Some(InvalidEnvelope)
    else if SourceError(c.source).Some? then SourceError(c.source)
    else if !Sha256Digest(c.targetSetDigest) then Some(InvalidEnvelope)
    else None
  }

  lemma SafeTextIsCanonical(s: Text, limit: nat)
    ensures SafeId(s, limit) ==> CanonicalText(s, limit)
    ensures SafeLabel(s) ==> CanonicalText(s, 100)
  {
  }

  /** Every text of a source is nonempty, bounded, trimmed and without control characters. */
  predicate ReadableSource(s: SourceIdentity) {
    && CanonicalText(s.partition, 64) && CanonicalText(s.account, 128) && CanonicalText(s.region, 128)
    && CanonicalText(s.name, 2048) && CanonicalText(s.lifecycleLabel, 100)
  }

  lemma SourceErrorExact(s: SourceIdentity)
    ensures SourceError(s).None? <==> ValidSource(s)
    ensures SourceError(s) == Some(SourceBoundary) <==> ReadableSource(s) && !ValidSource(s)
  {
    hide PathShape, Alphanumeric, LabelUnit, Whitespace;
    SafeTextIsCanonical(s.partition, 64);
    SafeTextIsCanonical(s.account, 128);
    SafeTextIsCanonical(s.region, 128);
    SafeTextIsCanonical(s.lifecycleLabel, 100);
  }

  /** The checks pass exactly the valid contexts; a bad source text or another bad field is an
      invalid envelope, and a readable source out of its bounds is a boundary error. */
  lemma ContextErrorExact(c: Context)
    ensures ContextError(c).None? <==> ValidContext(c)
    ensures ContextError(c) == Some(SourceBoundary) <==>
            && SafeId(c.operationId, 256) && SafeId(c.generation, 256)
            && ReadableSource(c.source) && !ValidSource(c.source)
  {
    hide CanonicalText, SafeId, Sha256Digest, SourceError, ValidSource, ReadableSource;
    SafeTextIsCanonical(c.operationId, 256);
    SafeTextIsCanonical(c.generation, 256);
    SourceErrorExact(c.source);
  }

  lemma ValidFieldsAreAscii(c: Context)
    requires ValidContext(c)
    ensures Ascii(c.operationId) && Ascii(c.generation) && Ascii(c.targetSetDigest)
    ensures Ascii(c.source.partition) && Ascii(c.source.account) && Ascii(c.source.region)
            && Ascii(c.source.lifecycleLabel)
  {
    var d := c.targetSetDigest;
    forall i | 0 <= i < |d| ensures d[i] < 0x80 {
      if i < 7 {
        assert d[i] == Literal("sha256:")[i];
      } else {
        assert HexUnit(d[i]);
      }
    }
  }

  // -------------------------------------------------------------- decimal

  /** `String(version)`. */
  function Decimal(n: nat): (digits: Text) {
    if n < 10 then [0x30 + n] else Decimal(n / 10) + [0x30 + n % 10]
  }

  function Value(digits: Text): int {
    if digits == [] then 0 else Value(digits[..|digits| - 1]) * 10 + (digits[|digits| - 1] as int - 0x30)
  }

  lemma {:induction false} ValueOfDecimal(n: nat)
    ensures Value(Decimal(n)) == n && Ascii(Decimal(n))
  {
    if n >= 10 {
      ValueOfDecimal(n / 10);
      assert Decimal(n)[..|Decimal(n)| - 1] == Decimal(n / 10);
    } else {
      assert Decimal(n)[..0] == [];
    }
  }

  function PowerOfTen(k: nat): nat {
    if k == 0 then 1 else 10 * PowerOfTen(k - 1)
  }

  lemma {:induction false} DecimalIsShort(n: nat, k: nat)
    requires 0 < k && n < PowerOfTen(k)
    ensures |Decimal(n)| <= k
  {
    if n >= 10 {
      assert PowerOfTen(1) == 10 * PowerOfTen(0);
      DecimalIsShort(n / 10, k - 1);
    }
  }

  lemma VersionIsShort(n: nat)
    requires n <= MAX_SAFE_INTEGER
    ensures |Decimal(n)| <= 16
  {
    assert PowerOfTen(4) == 10_000;
    assert PowerOfTen(8) == 100_000_000;
    assert PowerOfTen(12) == 1_000_000_000_000;
    assert PowerOfTen(16) == 10_000_000_000_000_000;
    DecimalIsShort(n, 16);
  }

  // --------------------------------------------------------------- layout

  function SchemaText(): (t: Text)
    ensures Ascii(t) && |t| == 35
  {
    Literal("skret/executor/provider-envelope/v1")
  }

  function SourceParts(s: SourceIdentity): seq<Bytes> {
    [EncodeText(s.partition), EncodeText(s.account), EncodeText(s.region), EncodeText(s.name),
     EncodeText(Decimal(s.version)), EncodeText(s.lifecycleLabel)]
  }

  function ContextParts(c: Context, source: Bytes): seq<Bytes> {
    [EncodeText(SchemaText()), EncodeText(c.operationId), EncodeText(c.generation), source,
     EncodeText(c.source.lifecycleLabel), EncodeText(Decimal(c.source.version)), EncodeText(c.targetSetDigest)]
  }

  lemma SizeOfTwo(a: Bytes, b: Bytes)
    ensures Size([a, b]) == 8 + |a| + |b|
  {
    assert [a, b][1..] == [b] && [b][1..] == [];
    assert Size([b]) == 4 + |b| + Size([]);
  }

  lemma SizeOfSix(a: Bytes, b: Bytes, c: Bytes, d: Bytes, e: Bytes, f: Bytes)
    ensures Size([a, b, c, d, e, f]) == 24 + |a| + |b| + |c| + |d| + |e| + |f|
  {
    SizeOfTwo(e, f);
    assert [d, e, f][1..] == [e, f];
    assert Size([d, e, f]) == 12 + |d| + |e| + |f|;
    assert [c, d, e, f][1..] == [d, e, f];
    assert Size([c, d, e, f]) == 16 + |c| + |d| + |e| + |f|;
    assert [b, c, d, e, f][1..] == [c, d, e, f];
    assert Size([b, c, d, e, f]) == 20 + |b| + |c| + |d| + |e| + |f|;
    assert [a, b, c, d, e, f][1..] == [b, c, d, e, f];
  }

  lemma SourceFits(s: SourceIdentity)
    requires ValidSource(s)
    ensures Size(SourceParts(s)) <= 7000 && Encodable(SourceParts(s))
  {
    hide EncodeText;
    assert Ascii(s.partition) && Ascii(s.account) && Ascii(s.region) && Ascii(s.lifecycleLabel);
    AsciiIsKept(s.partition);
    AsciiIsKept(s.account);
    AsciiIsKept(s.region);
    AsciiIsKept(s.lifecycleLabel);
    TextIsBounded(s.name);
    ValueOfDecimal(s.version);
    AsciiIsKept(Decimal(s.version));
    VersionIsShort(s.version);
    SizeOfSix(EncodeText(s.partition), EncodeText(s.account), EncodeText(s.region), EncodeText(s.name),
              EncodeText(Decimal(s.version)), EncodeText(s.lifecycleLabel));
    SizeBoundsParts(SourceParts(s));
  }

  ghost function SourceBytes(s: SourceIdentity): (bytes: Bytes)
    requires ValidSource(s)
    ensures |bytes| <= 7000
  {
    SourceFits(s);
    Encode(SourceParts(s))
  }

  lemma ContextFits(c: Context)
    requires ValidContext(c)
    ensures Size(ContextParts(c, SourceBytes(c.source))) <= 8000
    ensures Encodable(ContextParts(c, SourceBytes(c.source)))
  {
    hide EncodeText, SourceBytes;
    var parts := ContextParts(c, SourceBytes(c.source));
    ValidFieldsAreAscii(c);
    AsciiIsKept(SchemaText());
    AsciiIsKept(c.operationId);
    AsciiIsKept(c.generation);
    AsciiIsKept(c.source.lifecycleLabel);
    AsciiIsKept(c.targetSetDigest);
    ValueOfDecimal(c.source.version);
    AsciiIsKept(Decimal(c.source.version));
    VersionIsShort(c.source.version);
    assert parts[1..] == [parts[1], parts[2], parts[3], parts[4], parts[5], parts[6]];
    SizeOfSix(parts[1], parts[2], parts[3], parts[4], parts[5], parts[6]);
    SizeBoundsParts(parts);
  }

  /** A valid context always has bytes: the size limit never refuses it. */
  ghost function ContextBytes(c: Context): (bytes: Bytes)
    requires ValidContext(c)
    ensures |bytes| <= 8000
  {
    ContextFits(c);
    Encode(ContextParts(c, SourceBytes(c.source)))
  }

  function KindText(k: Kind): (t: Text)
    ensures Ascii(t) && |t| <= 6
  {
    match k
    case Source => Literal("source")
    case Kms => Literal("kms")
    case Target => Literal("target")
  }

  function ReferenceParts(r: Reference): seq<Bytes> {
    [EncodeText(KindText(r.kind)), EncodeText(r.id)]
  }

  lemma ReferenceFits(r: Reference)
    requires SafeReference(r.id)
    ensures Size(ReferenceParts(r)) <= 1038 && Encodable(ReferenceParts(r))
  {
    hide EncodeText;
    AsciiIsKept(KindText(r.kind));
    AsciiIsKept(r.id);
    SizeOfTwo(EncodeText(KindText(r.kind)), EncodeText(r.id));
    SizeBoundsParts(ReferenceParts(r));
  }

  ghost function ReferenceBytes(r: Reference): (bytes: Bytes)
    requires SafeReference(r.id)
    ensures |bytes| <= 1038
  {
    ReferenceFits(r);
    Encode(ReferenceParts(r))
  }

  ghost function ReferenceList(references: seq<Reference>): (parts: seq<Bytes>)
    requires forall i :: 0 <= i < |references| ==> SafeReference(references[i].id)
    ensures |parts| == |references|
    ensures forall i :: 0 <= i < |parts| ==> parts[i] == ReferenceBytes(references[i])
  {
    seq(|references|, i requires 0 <= i < |references| => ReferenceBytes(references[i]))
  }

  lemma {:induction false} BoundedParts(parts: seq<Bytes>, limit: nat)
    requires forall i :: 0 <= i < |parts| ==> |parts[i]| <= limit
    ensures Size(parts) <= |parts| * (4 + limit)
  {
    if parts != [] {
      BoundedParts(parts[1..], limit);
      assert |parts| * (4 + limit) == (4 + limit) + (|parts| - 1) * (4 + limit);
    }
  }

  lemma AdditionalDataFits(c: Context, references: seq<Reference>)
    requires ValidContext(c) && ValidReferences(references)
    ensures var parts := [ContextBytes(c)] + ReferenceList(references);
            Size(parts) <= 100_000 && Encodable(parts)
  {
    hide ContextBytes, ReferenceBytes;
    var list := ReferenceList(references);
    var parts := [ContextBytes(c)] + list;
    BoundedParts(list, 1038);
    assert |list| * 1042 <= 64 * 1042;
    assert parts[1..] == list;
    SizeBoundsParts(parts);
  }

  /** Nor does it refuse the additional data of any valid context and references. */
  ghost function AdditionalData(c: Context, references: seq<Reference>): (bytes: Bytes)
    requires ValidContext(c) && ValidReferences(references)
    ensures |bytes| <= 100_000
  {
    AdditionalDataFits(c, references);
    Encode([ContextBytes(c)] + ReferenceList(references))
  }

  ghost function MacInput(additional: Bytes, plaintext: Bytes): Option<Bytes> {
    var parts := [additional, plaintext];
    if Size(parts) > MAX_ENVELOPE_COMPONENT_BYTES then None
    else
      SizeBoundsParts(parts);
      Some(Encode(parts))
  }

  // ----------------------------------------------------------- injectivity

  /** What the bytes of a context can tell: everything but which unpaired surrogate a name held. */
  function RepairName(s: SourceIdentity): SourceIdentity {
    s.(name := Repair(s.name))
  }

  function RepairContext(c: Context): Context {
    c.(source := RepairName(c.source))
  }

  lemma SameAsciiText(a: Text, b: Text)
    requires Ascii(a) && Ascii(b) && EncodeText(a) == EncodeText(b)
    ensures a == b
  {
    SameBytesExactly(a, b);
    AsciiIsKept(a);
    AsciiIsKept(b);
  }

  lemma SameVersion(a: nat, b: nat)
    requires EncodeText(Decimal(a)) == EncodeText(Decimal(b))
    ensures a == b
  {
    ValueOfDecimal(a);
    ValueOfDecimal(b);
    SameAsciiText(Decimal(a), Decimal(b));
  }

  lemma SourceBytesExactly(a: SourceIdentity, b: SourceIdentity)
    requires ValidSource(a) && ValidSource(b)
    ensures SourceBytes(a) == SourceBytes(b) <==> RepairName(a) == RepairName(b)
  {
    hide EncodeText, Decimal, Encode;
    var p, q := SourceParts(a), SourceParts(b);
    SourceFits(a);
    SourceFits(b);
    SameBytesExactly(a.name, b.name);
    if SourceBytes(a) == SourceBytes(b) {
      EncodeIsInjective(p, q);
      assert p[0] == q[0] && p[1] == q[1] && p[2] == q[2] && p[3] == q[3] && p[4] == q[4] && p[5] == q[5];
      SameAsciiText(a.partition, b.partition);
      SameAsciiText(a.account, b.account);
      SameAsciiText(a.region, b.region);
      SameAsciiText(a.lifecycleLabel, b.lifecycleLabel);
      SameVersion(a.version, b.version);
    }
    if RepairName(a) == RepairName(b) {
      assert a == b.(name := a.name);
    }
  }

  /** Context bytes are equal exactly when the contexts are, up to unpaired surrogates in the
      parameter name. */
  lemma ContextBytesExactly(a: Context, b: Context)
    requires ValidContext(a) && ValidContext(b)
    ensures ContextBytes(a) == ContextBytes(b) <==> RepairContext(a) == RepairContext(b)
  {
    hide EncodeText, Decimal, Encode, SourceBytes, RepairName, Sha256Digest;
    SourceBytesExactly(a.source, b.source);
    var p, q := ContextParts(a, SourceBytes(a.source)), ContextParts(b, SourceBytes(b.source));
    ContextFits(a);
    ContextFits(b);
    if ContextBytes(a) == ContextBytes(b) {
      EncodeIsInjective(p, q);
      assert p[1] == q[1] && p[2] == q[2] && p[3] == q[3] && p[6] == q[6];
      ValidFieldsAreAscii(a);
      ValidFieldsAreAscii(b);
      SameAsciiText(a.operationId, b.operationId);
      SameAsciiText(a.generation, b.generation);
      SameAsciiText(a.targetSetDigest, b.targetSetDigest);
    }
    if RepairContext(a) == RepairContext(b) {
      RepairedContextsAgree(a, b);
    }
  }

  lemma RepairedContextsAgree(a: Context, b: Context)
    requires RepairContext(a) == RepairContext(b)
    ensures RepairName(a.source) == RepairName(b.source)
    ensures a.operationId == b.operationId && a.generation == b.generation && a.targetSetDigest == b.targetSetDigest
    ensures a.source.lifecycleLabel == b.source.lifecycleLabel && a.source.version == b.source.version
  {
    var x, y := RepairContext(a), RepairContext(b);
    assert x.source == y.source;
  }

  lemma SameReference(a: Reference, b: Reference)
    requires SafeReference(a.id) && SafeReference(b.id) && ReferenceBytes(a) == ReferenceBytes(b)
    ensures a == b
  {
    hide EncodeText, Encode, KindText;
    var p, q := ReferenceParts(a), ReferenceParts(b);
    ReferenceFits(a);
    ReferenceFits(b);
    EncodeIsInjective(p, q);
    assert p[0] == q[0] && p[1] == q[1];
    SameAsciiText(KindText(a.kind), KindText(b.kind));
    SameAsciiText(a.id, b.id);
    KindsDiffer(a.kind, b.kind);
  }

  lemma KindsDiffer(a: Kind, b: Kind)
    requires KindText(a) == KindText(b)
    ensures a == b
  {
    assert Literal("source")[0] == 0x73 && Literal("kms")[0] == 0x6B && Literal("target")[0] == 0x74;
  }

  /** Additional data binds the context, to the same extent, and the reference list exactly. */
  lemma AdditionalDataExactly(a: Context, r: seq<Reference>, b: Context, s: seq<Reference>)
    requires ValidContext(a) && ValidContext(b) && ValidReferences(r) && ValidReferences(s)
    ensures AdditionalData(a, r) == AdditionalData(b, s) <==> RepairContext(a) == RepairContext(b) && r == s
  {
    hide ContextBytes, ReferenceBytes, RepairContext, Encode;
    ContextBytesExactly(a, b);
    AdditionalDataFits(a, r);
    AdditionalDataFits(b, s);
    if AdditionalData(a, r) == AdditionalData(b, s) {
      var p, q := [ContextBytes(a)] + ReferenceList(r), [ContextBytes(b)] + ReferenceList(s);
      EncodeIsInjective(p, q);
      assert p[0] == q[0] && |r| == |s|;
      forall i | 0 <= i < |r| ensures r[i] == s[i] {
        assert p[i + 1] == q[i + 1];
        SameReference(r[i], s[i]);
      }
    }
  }

  /** Equal MAC inputs come from equal additional data and equal plaintext. */
  lemma MacInputIsInjective(a: Bytes, x: Bytes, b: Bytes, y: Bytes)
    requires MacInput(a, x).Some? && MacInput(a, x) == MacInput(b, y)
    ensures a == b && x == y
  {
    EncodeIsInjective([a, x], [b, y]);
    assert [a, x][0] == [b, y][0] && [a, x][1] == [b, y][1];
  }

  // ----------------------------------------------------------- layout read back

  /** A receiver reads back the schema, operation, generation, source, label, version and target set
      digest in this order, and of the source its partition, account, region, name, version and label. */
  lemma ContextIsReadBack(c: Context)
    requires ValidContext(c)
    ensures Decode(ContextBytes(c)) ==
            Some([EncodeText(SchemaText()), EncodeText(c.operationId), EncodeText(c.generation), SourceBytes(c.source),
                  EncodeText(c.source.lifecycleLabel), EncodeText(Decimal(c.source.version)),
                  EncodeText(c.targetSetDigest)])
    ensures Decode(SourceBytes(c.source)) ==
            Some([EncodeText(c.source.partition), EncodeText(c.source.account), EncodeText(c.source.region),
                  EncodeText(c.source.name), EncodeText(Decimal(c.source.version)),
                  EncodeText(c.source.lifecycleLabel)])
  {
    hide EncodeText, Encode, Decode, Decimal;
    ContextFits(c);
    SourceFits(c.source);
    DecodeOfEncode(ContextParts(c, SourceBytes(c.source)));
    DecodeOfEncode(SourceParts(c.source));
  }

  /** Additional data is the context first and then every reference, kind before id; a MAC input is the
      additional data first and then the plaintext. */
  lemma AdditionalDataIsReadBack(c: Context, references: seq<Reference>)
    requires ValidContext(c) && ValidReferences(references)
    ensures Decode(AdditionalData(c, references)).Some?
    ensures var parts := Decode(AdditionalData(c, references)).value;
            && |parts| == |references| + 1 && parts[0] == ContextBytes(c)
            && forall i :: 0 <= i < |references| ==>
                 Decode(parts[i + 1]) == Some([EncodeText(KindText(references[i].kind)), EncodeText(references[i].id)])
  {
    hide EncodeText, Encode, Decode, ContextBytes;
    AdditionalDataFits(c, references);
    var parts := [ContextBytes(c)] + ReferenceList(references);
    DecodeOfEncode(parts);
    forall i | 0 <= i < |references|
      ensures Decode(parts[i + 1]) == Some([EncodeText(KindText(references[i].kind)), EncodeText(references[i].id)])
    {
      ReferenceFits(references[i]);
      DecodeOfEncode(ReferenceParts(references[i]));
      assert parts[i + 1] == ReferenceBytes(references[i]);
    }
  }

  lemma MacInputIsReadBack(additional: Bytes, plaintext: Bytes)
    requires MacInput(additional, plaintext).Some?
    ensures Decode(MacInput(additional, plaintext).value) == Some([additional, plaintext])
  {
    SizeBoundsParts([additional, plaintext]);
    DecodeOfEncode([additional, plaintext]);
  }

  /** The kinds and the schema as they are spelled, and a version in decimal with no leading zero. */
  lemma ConstantsAreSpelled(n: nat)
    ensures EncodeText(KindText(Source)) == [0x73, 0x6F, 0x75, 0x72, 0x63, 0x65]
    ensures EncodeText(KindText(Kms)) == [0x6B, 0x6D, 0x73]
    ensures EncodeText(KindText(Target)) == [0x74, 0x61, 0x72, 0x67, 0x65, 0x74]
    ensures n > 0 ==> Decimal(n)[0] != 0x30
    ensures forall i :: 0 <= i < |Decimal(n)| ==> 0x30 <= Decimal(n)[i] <= 0x39
  {
    AsciiIsItself(KindText(Source));
    AsciiIsItself(KindText(Kms));
    AsciiIsItself(KindText(Target));
    DigitsOnly(n);
  }

  lemma {:induction false} DigitsOnly(n: nat)
    ensures n > 0 ==> Decimal(n)[0] != 0x30
    ensures forall i :: 0 <= i < |Decimal(n)| ==> 0x30 <= Decimal(n)[i] <= 0x39
  {
    if n >= 10 {
      DigitsOnly(n / 10);
    }
  }

  // --------------------------------------------------- lone surrogates

  function Sample(name: Text): Context {
    Context([0x61], [0x61],
      SourceIdentity([0x61], [0x61], [0x61], name, 1, [0x61]),
      Literal("sha256:") + seq(64, _ => 0x30))
  }

  /** Two different valid contexts with the same bytes: their names hold different unpaired surrogates. */
  lemma LoneSurrogatesCollide()
    ensures var a, b := Sample([0x2F, 0xD800]), Sample([0x2F, 0xDC00]);
            ValidContext(a) && ValidContext(b) && a != b && ContextBytes(a) == ContextBytes(b)
  {
    var x: Text, y: Text := [0x2F, 0xD800], [0x2F, 0xDC00];
    var a, b := Sample(x), Sample(y);
    assert a.targetSetDigest[..7] == Literal("sha256:");
    assert a.source.name[1] != b.source.name[1];
    RepairOfLone(0xD800);
    RepairOfLone(0xDC00);
    ContextBytesExactly(a, b);
  }

  lemma RepairOfLone(u: Unit)
    requires High(u) || Low(u)
    ensures Repair([0x2F, u]) == [0x2F, REPLACEMENT]
  {
    assert [0x2F, u][1..] == [u];
    assert [u][1..] == [];
    assert Repair([u]) == [REPLACEMENT] + Repair([]);
  }

  /** `sourceReference`: the fields joined by bars. */
  function SourceReference(s: SourceIdentity): Text {
    s.partition + [0x7C] + s.account + [0x7C] + s.region + [0x7C] + s.name + [0x7C] + Decimal(s.version) + [0x7C]
      + s.lifecycleLabel
  }

  /** An envelope is only created with its own source among the references, and every reference
      must be printable ASCII. */
  predicate Creatable(c: Context, references: seq<Reference>) {
    ValidContext(c) && ValidReferences(references) && Reference(Source, SourceReference(c.source)) in references
  }

  lemma CreatableNameIsAscii(c: Context, references: seq<Reference>)
    requires Creatable(c, references)
    ensures Ascii(c.source.name)
  {
    var s := c.source;
    var whole := SourceReference(s);
    var k :| 0 <= k < |references| && references[k] == Reference(Source, whole);
    assert SafeReference(whole);
    var before := s.partition + [0x7C] + s.account + [0x7C] + s.region + [0x7C];
    var after := [0x7C] + Decimal(s.version) + [0x7C] + s.lifecycleLabel;
    assert whole == before + s.name + after;
    forall i | 0 <= i < |s.name| ensures s.name[i] < 0x80 {
      assert whole[|before| + i] == s.name[i];
    }
  }

  /** So an envelope that was created binds its context exactly: no other valid context, whatever
      its name holds, yields the same additional data. */
  lemma CreatedEnvelopeBindsItsContext(a: Context, r: seq<Reference>, b: Context, s: seq<Reference>)
    requires Creatable(a, r) && ValidContext(b) && ValidReferences(s)
    ensures AdditionalData(a, r) == AdditionalData(b, s) <==> a == b && r == s
  {
    AdditionalDataExactly(a, r, b, s);
    if AdditionalData(a, r) == AdditionalData(b, s) {
      CreatableNameIsAscii(a, r);
      AsciiIsKept(a.source.name);
      assert RepairContext(a).source.name == RepairContext(b).source.name;
      AsciiHasOneSource(b.source.name);
      RepairedContextsAgree(a, b);
      assert RepairContext(b) == b;
      assert RepairContext(a) == a;
    }
  }

  /** Of the plaintexts the creator admits, the MAC input refuses exactly those that with their
      additional data and two lengths exceed the limit: none 100 kB below it, all in its last 8 bytes. */
  lemma AdmittedPlaintextIsRefusedExactly(c: Context, references: seq<Reference>, p: Bytes)
    requires Creatable(c, references) && |p| <= MAX_ENVELOPE_COMPONENT_BYTES
    ensures MacInput(AdditionalData(c, references), p).None? <==>
            |p| > MAX_ENVELOPE_COMPONENT_BYTES - 8 - |AdditionalData(c, references)|
    ensures |p| <= MAX_ENVELOPE_COMPONENT_BYTES - 100_008 ==> MacInput(AdditionalData(c, references), p).Some?
    ensures |p| > MAX_ENVELOPE_COMPONENT_BYTES - 8 ==> MacInput(AdditionalData(c, references), p).None?
  {
    hide AdditionalData;
    SizeOfTwo(AdditionalData(c, references), p);
  }

  /** So every envelope that could be created has a plaintext that is admitted and refused. */
  lemma SomeAdmittedPlaintextIsRefused(c: Context, references: seq<Reference>) returns (p: Bytes)
    requires Creatable(c, references)
    ensures |p| <= MAX_ENVELOPE_COMPONENT_BYTES && MacInput(AdditionalData(c, references), p).None?
  {
    p := seq(MAX_ENVELOPE_COMPONENT_BYTES, _ => 0);
    AdmittedPlaintextIsRefusedExactly(c, references, p);
  }

  // -------------------------------------------------------------- methods

  method SourceIdentityBytes(s: SourceIdentity) returns (r: Result<Bytes, EnvelopeError>)
    ensures r.Ok? <==> ValidSource(s)
    ensures r == if ValidSource(s) then Ok(SourceBytes(s)) else Err(SourceError(s).value)
  {
    hide EncodeText, Encode, SourceError, ValidSource;
    SourceErrorExact(s);
    var error := SourceError(s);
    if error.Some? {
      return Err(error.value);
    }
    SourceFits(s);
    var bytes := EncodeLengthPrefixed(SourceParts(s));
    r := Ok(bytes.value);
  }

  method CanonicalProviderContextBytes(c: Context) returns (r: Result<Bytes, EnvelopeError>)
    ensures r.Ok? <==> ValidContext(c)
    ensures ValidContext(c) ==> r == Ok(ContextBytes(c))
    ensures !ValidContext(c) ==> ContextError(c) == Some(r.error)
  {
    hide EncodeText, Encode, SourceBytes, ContextError;
    ContextErrorExact(c);
    var error := ContextError(c);
    if error.Some? {
      return Err(error.value);
    }
    ContextFits(c);
    var source := SourceIdentityBytes(c.source);
    var bytes := EncodeLengthPrefixed(ContextParts(c, source.value));
    r := Ok(bytes.value);
  }

  method EnvelopeAdditionalData(c: Context, references: seq<Reference>) returns (r: Result<Bytes, EnvelopeError>)
    requires ValidReferences(references)
    ensures r.Ok? <==> ValidContext(c)
    ensures ValidContext(c) ==> r == Ok(AdditionalData(c, references))
    ensures !ValidContext(c) ==> ContextError(c) == Some(r.error)
  {
    hide EncodeText, Encode, ContextBytes, ContextError;
    var context := CanonicalProviderContextBytes(c);
    if context.Err? {
      return context;
    }
    var parts := [context.value];
    var i := 0;
    while i < |references|
      invariant 0 <= i <= |references| && |parts| == i + 1 && parts[0] == ContextBytes(c)
      invariant forall k :: 0 <= k < i ==> parts[k + 1] == ReferenceBytes(references[k])
    {
      ReferenceFits(references[i]);
      var encoded := EncodeLengthPrefixed(ReferenceParts(references[i]));
      parts := parts + [encoded.value];
      i := i + 1;
    }
    assert parts == [ContextBytes(c)] + ReferenceList(references);
    AdditionalDataFits(c, references);
    var bytes := EncodeLengthPrefixed(parts);
    r := Ok(bytes.value);
  }

  method EnvelopeMacInput(additional: Bytes, plaintext: Bytes) returns (r: Option<Bytes>)
    ensures r.Some? <==> 8 + |additional| + |plaintext| <= MAX_ENVELOPE_COMPONENT_BYTES
    ensures r == MacInput(additional, plaintext)
  {
    SizeOfTwo(additional, plaintext);
    r := EncodeLengthPrefixed([additional, plaintext]);
  }
}
