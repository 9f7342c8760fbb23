/** The length-prefixed byte encoding of hub/src/executor-provider-crypto.ts: each part behind its
    length as a big-endian 32-bit number. */
module LengthPrefix {
  import opened Collections

  type Bytes = seq<Byte>

  const MAX_ENVELOPE_COMPONENT_BYTES: nat := 16 * 1024 * 1024
  const U32_LIMIT: nat := 0x1_0000_0000

  function U32(n: nat): (bytes: Bytes)
    requires n < U32_LIMIT
    ensures |bytes| == 4
  {
    [n / 256 / 256 / 256, n / 256 / 256 % 256, n / 256 % 256, n % 256]
  }

  function ReadU32(bytes: Bytes): (n: nat)
    requires |bytes| == 4
    ensures n < U32_LIMIT
  {
    ((bytes[0] as int * 256 + bytes[1]) * 256 + bytes[2]) * 256 + bytes[3]
  }

  lemma U32RoundTrips(n: nat)
    requires n < U32_LIMIT
    ensures ReadU32(U32(n)) == n
  {
  }

  /** The most significant byte comes first. */
  lemma U32IsBigEndian(n: nat)
    requires n < U32_LIMIT
    ensures var b := U32(n); n == b[0] as int * 16_777_216 + b[1] as int * 65_536 + b[2] as int * 256 + b[3]
  {
  }

  lemma U32IsOnto(bytes: Bytes)
    requires |bytes| == 4
    ensures U32(ReadU32(bytes)) == bytes
  {
    var n := ReadU32(bytes);
    assert n % 256 == bytes[3] && n / 256 == (bytes[0] as int * 256 + bytes[1]) * 256 + bytes[2];
    assert n / 256 / 256 == bytes[0] as int * 256 + bytes[1];
  }

  ghost predicate Encodable(parts: seq<Bytes>) {
    forall i :: 0 <= i < |parts| ==> |parts[i]| < U32_LIMIT
  }

  function Size(parts: seq<Bytes>): nat {
    if parts == [] then 0 else 4 + |parts[0]| + Size(parts[1..])
  }

  ghost function Framed(part: Bytes): (bytes: Bytes)
    requires |part| < U32_LIMIT
    ensures |bytes| == 4 + |part|
  {
    U32(|part|) + part
  }

  ghost function Encode(parts: seq<Bytes>): (bytes: Bytes)
    requires Encodable(parts)
    ensures |bytes| == Size(parts)
  {
    if parts == [] then [] else Framed(parts[0]) + Encode(parts[1..])
  }

  /** The reading a receiver would use; the code never decodes, so this is the reference. */
  ghost function Decode(bytes: Bytes): (parts: Option<seq<Bytes>>)
    ensures parts.Some? ==> Encodable(parts.value)
    decreases |bytes|
  {
    if bytes == [] then Some([])
    else if |bytes| < 4 || |bytes| < 4 + ReadU32(bytes[..4]) then None
    else
      var n := ReadU32(bytes[..4]);
      var rest := Decode(bytes[4 + n..]);
      if rest.None? then None else Some([bytes[4..4 + n]] + rest.value)
  }

  /** Every list of parts is recovered from its encoding. */
  lemma {:induction false} DecodeOfEncode(parts: seq<Bytes>)
    requires Encodable(parts)
    ensures Decode(Encode(parts)) == Some(parts)
  {
    hide U32, ReadU32;
    if parts != [] {
      var n, rest := |parts[0]|, Encode(parts[1..]);
      var bytes := Encode(parts);
      assert bytes == Framed(parts[0]) + rest;
      assert bytes[..4] == U32(n);
      U32RoundTrips(n);
      assert bytes[4..4 + n] == parts[0];
      assert bytes[4 + n..] == rest;
      DecodeOfEncode(parts[1..]);
      assert [parts[0]] + parts[1..] == parts;
    }
  }

  /** And whatever decodes is the one encoding of what it decodes to. */
  lemma {:induction false} EncodeOfDecode(bytes: Bytes)
    requires Decode(bytes).Some?
    ensures Encode(Decode(bytes).value) == bytes
    decreases |bytes|
  {
    if bytes != [] {
      var n := ReadU32(bytes[..4]);
      var part, rest := bytes[4..4 + n], bytes[4 + n..];
      EncodeOfDecode(rest);
      FrameIsRead(bytes);
      EncodeCons(part, Decode(rest).value);
      assert Decode(bytes).value == [part] + Decode(rest).value;
    }
  }

  lemma EncodeCons(part: Bytes, parts: seq<Bytes>)
    requires Encodable(parts) && |part| < U32_LIMIT
    ensures Encodable([part] + parts) && Encode([part] + parts) == Framed(part) + Encode(parts)
  {
    hide Framed;
    assert ([part] + parts)[1..] == parts;
  }

  lemma FrameIsRead(bytes: Bytes)
    requires |bytes| >= 4 && |bytes| >= 4 + ReadU32(bytes[..4])
    ensures var n := ReadU32(bytes[..4]); Framed(bytes[4..4 + n]) + bytes[4 + n..] == bytes
  {
    hide U32, ReadU32;
    U32IsOnto(bytes[..4]);
    var n := ReadU32(bytes[..4]);
    assert Framed(bytes[4..4 + n]) == bytes[..4] + bytes[4..4 + n];
  }

  lemma EncodeIsInjective(a: seq<Bytes>, b: seq<Bytes>)
    requires Encodable(a) && Encodable(b) && Encode(a) == Encode(b)
    ensures a == b
  {
    DecodeOfEncode(a);
    DecodeOfEncode(b);
  }

  lemma {:induction false} EncodeConcat(a: seq<Bytes>, b: seq<Bytes>)
    requires Encodable(a) && Encodable(b)
    ensures Encodable(a + b) && Encode(a + b) == Encode(a) + Encode(b)
    ensures Size(a + b) == Size(a) + Size(b)
  {
    hide Framed;
    if a == [] {
      assert a + b == b;
    } else {
      EncodeConcat(a[1..], b);
      assert (a + b)[0] == a[0] && (a + b)[1..] == a[1..] + b;
      assert Encodable(a[1..] + b) && Encodable(a + b);
      var head, tail, last := Framed(a[0]), Encode(a[1..]), Encode(b);
      assert head + (tail + last) == (head + tail) + last;
    }
  }

  lemma EncodeNext(parts: seq<Bytes>, i: nat)
    requires Encodable(parts) && i < |parts|
    ensures Encode(parts[..i + 1]) == Encode(parts[..i]) + Framed(parts[i])
    ensures Size(parts[..i + 1]) == Size(parts[..i]) + 4 + |parts[i]|
  {
    hide Framed;
    assert parts[..i + 1] == parts[..i] + [parts[i]];
    EncodeConcat(parts[..i], [parts[i]]);
    assert Encode([parts[i]]) == Framed(parts[i]) + Encode([]);
    assert Size([parts[i]]) == 4 + |parts[i]|;
  }

  lemma {:induction false} SizeGrows(parts: seq<Bytes>, i: nat)
    requires i <= |parts|
    ensures Size(parts[..i]) <= Size(parts)
    ensures i < |parts| ==> Size(parts[..i + 1]) == Size(parts[..i]) + 4 + |parts[i]|
  {
    if i > 0 {
      SizeGrows(parts[1..], i - 1);
      assert parts[..i][1..] == parts[1..][..i - 1];
      if i < |parts| {
        assert parts[..i + 1][1..] == parts[1..][..i];
      }
    }
  }

  lemma SizeBoundsParts(parts: seq<Bytes>)
    requires Size(parts) < U32_LIMIT
    ensures Encodable(parts)
  {
    forall i | 0 <= i < |parts| ensures |parts[i]| < U32_LIMIT {
      SizeGrows(parts, i);
      SizeGrows(parts, i + 1);
    }
  }

  /** Copies `part` into `output` behind what is already written. */
  method SetAt(output: array<Byte>, part: Bytes, offset: nat)
    requires offset + |part| <= output.Length
    modifies output
    ensures output[..offset] == old(output[..offset])
    ensures output[..offset + |part|] == old(output[..offset]) + part
  {
    var i := 0;
    while i < |part|
      invariant 0 <= i <= |part|
      invariant output[..offset] == old(output[..offset])
      invariant output[offset..offset + i] == part[..i]
    {
      output[offset + i] := part[i];
      i := i + 1;
    }
    assert output[..offset + |part|] == output[..offset] + output[offset..offset + |part|];
  }

  /** `encodeLengthPrefixed`: refused exactly when the whole would exceed the component limit. */
  method EncodeLengthPrefixed(parts: seq<Bytes>) returns (r: Option<Bytes>)
    ensures r.Some? <==> Size(parts) <= MAX_ENVELOPE_COMPONENT_BYTES
    ensures r.Some? ==> Encodable(parts) && r.value == Encode(parts)
  {
    var total: nat := 0;
    var i := 0;
    while i < |parts|
      invariant 0 <= i <= |parts| && total == Size(parts[..i]) <= MAX_ENVELOPE_COMPONENT_BYTES
    {
      SizeGrows(parts, i);
      SizeGrows(parts, i + 1);
      if |parts[i]| > 0xffff_ffff {
        return None;
      }
      total := total + 4 + |parts[i]|;
      if total > 0xffff_ffff || total > MAX_ENVELOPE_COMPONENT_BYTES {
        return None;
      }
      i := i + 1;
    }
    assert parts[..|parts|] == parts;
    SizeBoundsParts(parts);
    var output := Fill(parts, total);
    r := Some(output);
  }

  method PutPart(output: array<Byte>, part: Bytes, offset: nat)
    requires |part| < U32_LIMIT && offset + 4 + |part| <= output.Length
    modifies output
    ensures output[..offset + 4 + |part|] == old(output[..offset]) + Framed(part)
  {
    hide U32;
    SetAt(output, U32(|part|), offset);
    SetAt(output, part, offset + 4);
  }

  lemma NothingEncoded(parts: seq<Bytes>)
    ensures Size(parts[..0]) == 0 && Encode(parts[..0]) == []
  {
  }

  method Fill(parts: seq<Bytes>, total: nat) returns (bytes: Bytes)
    requires Encodable(parts) && total == Size(parts)
    ensures bytes == Encode(parts)
  {
    hide Framed, Encode, Size;
    var output := new Byte[total](_ => 0);
    NothingEncoded(parts);
    var offset: nat := 0;
    var i := 0;
    while i < |parts|
      invariant 0 <= i <= |parts| && offset == Size(parts[..i]) <= total
      invariant output[..offset] == Encode(parts[..i])
    {
      SizeGrows(parts, i);
      SizeGrows(parts, i + 1);
      EncodeNext(parts, i);
      PutPart(output, parts[i], offset);
      offset := offset + 4 + |parts[i]|;
      i := i + 1;
    }
    assert parts[..|parts|] == parts;
    bytes := output[..];
    assert bytes == output[..total];
  }
}
