/** `TextEncoder.encode` on JavaScript strings: UTF-16 code units to scalar values, unpaired
    surrogates replaced by U+FFFD, and scalar values to UTF-8 (section 3 of RFC 3629). */
module TextBytes {
  import opened Collections
  import opened LengthPrefix

  type Text = seq<Unit>
  type Scalar = c: int | 0 <= c < 0x11_0000 && !(0xD800 <= c <= 0xDFFF)

  const REPLACEMENT: Unit := 0xFFFD

  predicate High(u: Unit) {
    0xD800 <= u <= 0xDBFF
  }

  predicate Low(u: Unit) {
    0xDC00 <= u <= 0xDFFF
  }

  predicate Pair(s: Text) {
    |s| >= 2 && High(s[0]) && Low(s[1])
  }

  function Scalars(s: Text): seq<Scalar> {
    if s == [] then []
    else if Pair(s) then [0x1_0000 + (s[0] - 0xD800) * 0x400 + (s[1] - 0xDC00)] + Scalars(s[2..])
    else if High(s[0]) || Low(s[0]) then [REPLACEMENT] + Scalars(s[1..])
    else [s[0]] + Scalars(s[1..])
  }

  function Utf8One(c: Scalar): (bytes: Bytes)
    ensures 1 <= |bytes| <= 4
  {
    if c < 0x80 then [c]
    else if c < 0x800 then [0xC0 + c / 0x40, 0x80 + c % 0x40]
    else if c < 0x1_0000 then [0xE0 + c / 0x40 / 0x40, 0x80 + c / 0x40 % 0x40, 0x80 + c % 0x40]
    else [0xF0 + c / 0x40 / 0x40 / 0x40, 0x80 + c / 0x40 / 0x40 % 0x40, 0x80 + c / 0x40 % 0x40, 0x80 + c % 0x40]
  }

  function Utf8(s: seq<Scalar>): Bytes {
    if s == [] then [] else Utf8One(s[0]) + Utf8(s[1..])
  }

  function EncodeText(s: Text): Bytes {
    Utf8(Scalars(s))
  }

  // ------------------------------------------------- UTF-8 loses nothing

  function LeadLength(lead: Byte): nat {
    if lead < 0x80 then 1 else if lead < 0xE0 then 2 else if lead < 0xF0 then 3 else 4
  }

  lemma LeadTellsLength(c: Scalar)
    ensures LeadLength(Utf8One(c)[0]) == |Utf8One(c)|
  {
  }

  /** The scalar value is recovered from its bytes by taking six bits from each continuation. */
  function DecodeOne(bytes: Bytes): int {
    if |bytes| == 1 then bytes[0]
    else if |bytes| == 2 then (bytes[0] as int - 0xC0) * 0x40 + (bytes[1] as int - 0x80)
    else if |bytes| == 3
      then ((bytes[0] as int - 0xE0) * 0x40 + (bytes[1] as int - 0x80)) * 0x40 + (bytes[2] as int - 0x80)
    else if |bytes| == 4 then
      (((bytes[0] as int - 0xF0) * 0x40 + (bytes[1] as int - 0x80)) * 0x40 + (bytes[2] as int - 0x80)) * 0x40
        + (bytes[3] as int - 0x80)
    else 0
  }

  lemma DecodeOneInverts(c: Scalar)
    ensures DecodeOne(Utf8One(c)) == c
  {
  }

  lemma Utf8OneIsInjective(x: Scalar, y: Scalar)
    requires Utf8One(x) == Utf8One(y)
    ensures x == y
  {
    DecodeOneInverts(x);
    DecodeOneInverts(y);
  }

  lemma {:induction false} Utf8IsInjective(a: seq<Scalar>, b: seq<Scalar>)
    requires Utf8(a) == Utf8(b)
    ensures a == b
    decreases |a|
  {
    hide Utf8One;
    if a == [] || b == [] {
      assert a == b;
    } else {
      var x, y := Utf8One(a[0]), Utf8One(b[0]);
      assert Utf8(a)[0] == x[0] && Utf8(b)[0] == y[0];
      LeadTellsLength(a[0]);
      LeadTellsLength(b[0]);
      assert x == Utf8(a)[..|x|] && y == Utf8(b)[..|y|];
      Utf8OneIsInjective(a[0], b[0]);
      assert Utf8(a[1..]) == Utf8(a)[|x|..] && Utf8(b[1..]) == Utf8(b)[|y|..];
      Utf8IsInjective(a[1..], b[1..]);
      assert a == [a[0]] + a[1..] && b == [b[0]] + b[1..];
    }
  }

  // ------------------------------------------- lone surrogates are lost

  /** Every unpaired surrogate replaced by U+FFFD. */
  function Repair(s: Text): Text {
    if s == [] then []
    else if Pair(s) then s[..2] + Repair(s[2..])
    else if High(s[0]) || Low(s[0]) then [REPLACEMENT] + Repair(s[1..])
    else [s[0]] + Repair(s[1..])
  }

  /** A surrogate whose partner is not beside it. */
  predicate Unpaired(s: Text, i: nat)
    requires i < |s|
  {
    || (High(s[i]) && (i + 1 == |s| || !Low(s[i + 1])))
    || (Low(s[i]) && (i == 0 || !High(s[i - 1])))
  }

  lemma {:induction false} RepairExactly(s: Text)
    ensures |Repair(s)| == |s|
    ensures forall i :: 0 <= i < |s| ==> Repair(s)[i] == if Unpaired(s, i) then REPLACEMENT else s[i]
  {
    if s != [] {
      var n := if Pair(s) then 2 else 1;
      var rest := s[n..];
      RepairExactly(rest);
      assert Repair(s)[n..] == Repair(rest);
      forall i | 0 <= i < |s| ensures Repair(s)[i] == if Unpaired(s, i) then REPLACEMENT else s[i] {
        if i >= n {
          assert Repair(s)[i] == Repair(rest)[i - n] && s[i] == rest[i - n];
          assert Unpaired(s, i) <==> Unpaired(rest, i - n);
        }
      }
    }
  }

  function Units(s: seq<Scalar>): Text {
    if s == [] then []
    else if s[0] >= 0x1_0000
    then [0xD800 + (s[0] - 0x1_0000) / 0x400, 0xDC00 + (s[0] - 0x1_0000) % 0x400] + Units(s[1..])
    else [s[0]] + Units(s[1..])
  }

  lemma {:induction false} UnitsOfScalars(s: Text)
    ensures Units(Scalars(s)) == Repair(s)
  {
    if s != [] {
      if Pair(s) {
        UnitsOfScalars(s[2..]);
        var c: int := 0x1_0000 + (s[0] as int - 0xD800) * 0x400 + (s[1] - 0xDC00);
        assert Scalars(s)[0] == c && Scalars(s)[1..] == Scalars(s[2..]);
        assert (c - 0x1_0000) / 0x400 == s[0] - 0xD800 && (c - 0x1_0000) % 0x400 == s[1] - 0xDC00;
        assert s[..2] == [s[0], s[1]];
      } else {
        UnitsOfScalars(s[1..]);
        assert Scalars(s)[1..] == Scalars(s[1..]);
      }
    }
  }

  lemma {:induction false} RepairKeepsScalars(s: Text)
    ensures Scalars(Repair(s)) == Scalars(s)
  {
    if s != [] {
      if Pair(s) {
        RepairKeepsScalars(s[2..]);
        assert Repair(s)[0] == s[0] && Repair(s)[1] == s[1] && Repair(s)[2..] == Repair(s[2..]);
      } else {
        RepairKeepsScalars(s[1..]);
        assert Repair(s)[1..] == Repair(s[1..]);
      }
    }
  }

  /** Two strings have the same bytes exactly when they differ only in unpaired surrogates, each
      standing for U+FFFD. */
  lemma SameBytesExactly(a: Text, b: Text)
    ensures EncodeText(a) == EncodeText(b) <==> Repair(a) == Repair(b)
  {
    UnitsOfScalars(a);
    UnitsOfScalars(b);
    RepairKeepsScalars(a);
    RepairKeepsScalars(b);
    if EncodeText(a) == EncodeText(b) {
      Utf8IsInjective(Scalars(a), Scalars(b));
    }
  }

  predicate Ascii(s: Text) {
    forall i :: 0 <= i < |s| ==> s[i] < 0x80
  }

  lemma {:induction false} AsciiIsKept(s: Text)
    requires Ascii(s)
    ensures Repair(s) == s && |EncodeText(s)| == |s|
  {
    if s != [] {
      AsciiIsKept(s[1..]);
      assert [s[0]] + s[1..] == s;
      assert Scalars(s)[1..] == Scalars(s[1..]);
    }
  }

  /** Each ASCII unit is one byte with its own number. */
  lemma {:induction false} AsciiIsItself(s: Text)
    requires Ascii(s)
    ensures |EncodeText(s)| == |s| && forall i :: 0 <= i < |s| ==> EncodeText(s)[i] == s[i]
  {
    if s != [] {
      AsciiIsItself(s[1..]);
      assert Scalars(s)[0] == s[0] && Scalars(s)[1..] == Scalars(s[1..]);
      assert EncodeText(s) == [s[0]] + EncodeText(s[1..]);
    }
  }

  /** Nothing but itself turns into an ASCII string. */
  lemma {:induction false} AsciiHasOneSource(s: Text)
    requires Ascii(Repair(s))
    ensures Repair(s) == s
  {
    if s != [] {
      assert Repair(s)[0] < 0x80;
      if Pair(s) {
        assert false;
      } else {
        assert Repair(s)[1..] == Repair(s[1..]);
        AsciiHasOneSource(s[1..]);
        assert [s[0]] + s[1..] == s;
      }
    }
  }

  lemma {:induction false} TextIsBounded(s: Text)
    ensures |EncodeText(s)| <= 3 * |s|
  {
    if s != [] {
      if Pair(s) {
        TextIsBounded(s[2..]);
        assert Scalars(s)[1..] == Scalars(s[2..]);
      } else {
        TextIsBounded(s[1..]);
        assert Scalars(s)[1..] == Scalars(s[1..]);
      }
    }
  }
}
