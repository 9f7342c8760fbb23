/** The duplicate-name scanner of hub/src/security-executor.ts: a hand-written recursive descent
    over an index, first as recursive functions, then as the loops of the source. */
module JsonScan {
  import opened Collections
  import opened JsonText

  datatype Scan = Scan(next: nat, duplicate: bool)

  function SkipSpace(t: seq<Unit>, start: nat): (i: nat)
    ensures start <= i && (start <= |t| ==> i <= |t|)
    decreases |t| - start
  {
    if start < |t| && IsSpace(t[start]) then SkipSpace(t, start + 1) else start
  }

  predicate Holds(t: seq<Unit>, i: nat, u: Unit) {
    i < |t| && t[i] == u
  }

  /** Past the closing quote of a string whose body starts at i. */
  function StringEnd(t: seq<Unit>, i: nat): (end: Option<nat>)
    ensures end.Some? ==> i < end.value <= |t|
    decreases |t| - i
  {
    if i >= |t| || t[i] < 0x20 then None
    else if t[i] == QUOTE then Some(i + 1)
    else if t[i] == BACKSLASH then StringEnd(t, i + 2)
    else StringEnd(t, i + 1)
  }

  function ScanString(t: seq<Unit>, start: nat): (end: Option<nat>)
    ensures end.Some? ==> start + 1 < end.value <= |t|
  {
    if Holds(t, start, QUOTE) then StringEnd(t, start + 1) else None
  }

  /** JSON.parse restricted to the inside of a string token. */
  function DecodeBody(s: seq<Unit>): Option<seq<Unit>> {
    if s == [] then Some([])
    else if s[0] == BACKSLASH then
      if |s| >= 6 && s[1] == LETTER_U && HexQuad(s[2], s[3], s[4], s[5]) then
        Prepend(HexUnit(s[2], s[3], s[4], s[5]), DecodeBody(s[6..]))
      else if |s| >= 2 && SimpleEscape(s[1]).Some? then Prepend(SimpleEscape(s[1]).value, DecodeBody(s[2..]))
      else None
    else if s[0] < 0x20 || s[0] == QUOTE then None
    else Prepend(s[0], DecodeBody(s[1..]))
  }

  function Prepend(u: Unit, rest: Option<seq<Unit>>): Option<seq<Unit>> {
    if rest.None? then None else Some([u] + rest.value)
  }

  function DecodeName(raw: seq<Unit>): Option<seq<Unit>> {
    if |raw| >= 2 && raw[0] == QUOTE && raw[|raw| - 1] == QUOTE then DecodeBody(raw[1..|raw| - 1]) else None
  }

  /** The characters that end an unquoted token. */
  predicate IsStop(u: Unit) {
    IsSpace(u) || u == COMMA || u == CLOSE_BRACKET || u == CLOSE_BRACE
  }

  function TokenEnd(t: seq<Unit>, i: nat): (end: nat)
    ensures i <= end && (i <= |t| ==> end <= |t|)
    decreases |t| - i
  {
    if i < |t| && !IsStop(t[i]) then TokenEnd(t, i + 1) else i
  }

  predicate StartsWith(t: seq<Unit>, i: nat, word: seq<Unit>) {
    i + |word| <= |t| && t[i..i + |word|] == word
  }

  function ScanValue(t: seq<Unit>, start: nat): (r: Option<Scan>)
    requires start <= |t|
    ensures r.Some? ==> start < r.value.next <= |t|
    decreases |t| - start, 1
  {
    var i := SkipSpace(t, start);
    if Holds(t, i, OPEN_BRACE) then ScanObject(t, i)
    else if Holds(t, i, OPEN_BRACKET) then ScanArray(t, i)
    else if Holds(t, i, QUOTE) then
      var end := ScanString(t, i);
      if end.None? then None else Some(Scan(end.value, false))
    else if StartsWith(t, i, TRUE) then Some(Scan(i + |TRUE|, false))
    else if StartsWith(t, i, FALSE) then Some(Scan(i + |FALSE|, false))
    else if StartsWith(t, i, NULL) then Some(Scan(i + |NULL|, false))
    else if TokenEnd(t, i) == i then None
    else Some(Scan(TokenEnd(t, i), false))
  }

  function ScanObject(t: seq<Unit>, start: nat): (r: Option<Scan>)
    requires start < |t|
    ensures r.Some? ==> start < r.value.next <= |t|
    decreases |t| - start, 0
  {
    var i := SkipSpace(t, start + 1);
    if Holds(t, i, CLOSE_BRACE) then Some(Scan(i + 1, false)) else ScanMembers(t, i, {})
  }

  /** The member loop, entered at a name. */
  function ScanMembers(t: seq<Unit>, index: nat, keys: set<seq<Unit>>): (r: Option<Scan>)
    requires index <= |t|
    ensures r.Some? ==> index < r.value.next <= |t|
    decreases |t| - index, 2
  {
    var end := ScanString(t, index);
    if end.None? then None
    else
      var key := DecodeName(t[index..end.value]);
      if key.None? then None
      else if key.value in keys then Some(Scan(end.value, true))
      else
        var colon := SkipSpace(t, end.value);
        if !Holds(t, colon, COLON) then None
        else
          var value := ScanValue(t, colon + 1);
          if value.None? || value.value.duplicate then value
          else
            var i := SkipSpace(t, value.value.next);
            if Holds(t, i, CLOSE_BRACE) then Some(Scan(i + 1, false))
            else if !Holds(t, i, COMMA) then None
            else ScanMembers(t, SkipSpace(t, i + 1), keys + {key.value})
  }

  function ScanArray(t: seq<Unit>, start: nat): (r: Option<Scan>)
    requires start < |t|
    ensures r.Some? ==> start < r.value.next <= |t|
    decreases |t| - start, 0
  {
    var i := SkipSpace(t, start + 1);
    if Holds(t, i, CLOSE_BRACKET) then Some(Scan(i + 1, false)) else ScanItems(t, i)
  }

  /** The item loop, entered at a value. */
  function ScanItems(t: seq<Unit>, index: nat): (r: Option<Scan>)
    requires index <= |t|
    ensures r.Some? ==> index < r.value.next <= |t|
    decreases |t| - index, 2
  {
    if index >= |t| then None
    else
      var value := ScanValue(t, index);
      if value.None? || value.value.duplicate then value
      else
        var i := SkipSpace(t, value.value.next);
        if Holds(t, i, CLOSE_BRACKET) then Some(Scan(i + 1, false))
        else if !Holds(t, i, COMMA) then None
        else ScanItems(t, SkipSpace(t, i + 1))
  }

  predicate HasDuplicateKeys(t: seq<Unit>) {
    var r := ScanValue(t, 0);
    r.Some? && r.value.duplicate
  }
}
