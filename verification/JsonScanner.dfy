/** The scanner in the source's own form: an index advanced by loops, a growing set of names, and
    recursion between value, object and array. Each method computes its recursive function. */
module JsonScanner {
  import opened Collections
  import opened JsonText
  import opened JsonScan
  import JsonProofs

  method SkipJsonWhitespace(t: seq<Unit>, start: nat) returns (index: nat)
    ensures index == SkipSpace(t, start)
  {
    index := start;
    while index < |t| && IsSpace(t[index])
      invariant start <= index
      invariant SkipSpace(t, index) == SkipSpace(t, start)
      decreases |t| - index
    {
      index := index + 1;
    }
  }

  method ScanJsonString(t: seq<Unit>, start: nat) returns (end: Option<nat>)
    ensures end == ScanString(t, start)
  {
    if !Holds(t, start, QUOTE) {
      return None;
    }
    var index := start + 1;
    while index < |t|
      invariant start < index
      invariant StringEnd(t, index) == StringEnd(t, start + 1)
      decreases |t| - index
    {
      if t[index] < 0x20 {
        return None;
      }
      if t[index] == QUOTE {
        return Some(index + 1);
      }
      index := if t[index] == BACKSLASH then index + 2 else index + 1;
    }
    return None;
  }

  method ScanJsonToken(t: seq<Unit>, start: nat) returns (next: nat)
    ensures next == TokenEnd(t, start)
  {
    next := start;
    while next < |t| && !IsStop(t[next])
      invariant start <= next
      invariant TokenEnd(t, next) == TokenEnd(t, start)
      decreases |t| - next
    {
      next := next + 1;
    }
  }

  method ScanJsonValue(t: seq<Unit>, start: nat) returns (r: Option<Scan>)
    requires start <= |t|
    ensures r == ScanValue(t, start)
    decreases |t| - start, 1
  {
    var index := SkipJsonWhitespace(t, start);
    if Holds(t, index, OPEN_BRACE) {
      r := ScanJsonObject(t, index);
      return;
    }
    if Holds(t, index, OPEN_BRACKET) {
      r := ScanJsonArray(t, index);
      return;
    }
    if Holds(t, index, QUOTE) {
      var end := ScanJsonString(t, index);
      return if end.None? then None else Some(Scan(end.value, false));
    }
    if StartsWith(t, index, TRUE) {
      return Some(Scan(index + |TRUE|, false));
    }
    if StartsWith(t, index, FALSE) {
      return Some(Scan(index + |FALSE|, false));
    }
    if StartsWith(t, index, NULL) {
      return Some(Scan(index + |NULL|, false));
    }
    var next := ScanJsonToken(t, index);
    return if next == index then None else Some(Scan(next, false));
  }

  method ScanJsonObject(t: seq<Unit>, start: nat) returns (r: Option<Scan>)
    requires start < |t|
    ensures r == ScanObject(t, start)
    decreases |t| - start, 0
  {
    hide SkipSpace, ScanString, ScanValue, DecodeName;
    var keys: set<seq<Unit>> := {};
    var index := SkipJsonWhitespace(t, start + 1);
    if Holds(t, index, CLOSE_BRACE) {
      return Some(Scan(index + 1, false));
    }
    while index < |t|
      invariant start < index <= |t|
      invariant ScanMembers(t, index, keys) == ScanObject(t, start)
      decreases |t| - index
    {
      var keyEnd := ScanJsonString(t, index);
      if keyEnd.None? {
        return None;
      }
      var key := DecodeName(t[index..keyEnd.value]);
      if key.None? {
        return None;
      }
      if key.value in keys {
        return Some(Scan(keyEnd.value, true));
      }
      keys := keys + {key.value};
      var colon := SkipJsonWhitespace(t, keyEnd.value);
      if !Holds(t, colon, COLON) {
        return None;
      }
      var value := ScanJsonValue(t, colon + 1);
      if value.None? || value.value.duplicate {
        return value;
      }
      var next := SkipJsonWhitespace(t, value.value.next);
      if Holds(t, next, CLOSE_BRACE) {
        return Some(Scan(next + 1, false));
      }
      if !Holds(t, next, COMMA) {
        return None;
      }
      index := SkipJsonWhitespace(t, next + 1);
    }
    return None;
  }

  method ScanJsonArray(t: seq<Unit>, start: nat) returns (r: Option<Scan>)
    requires start < |t|
    ensures r == ScanArray(t, start)
    decreases |t| - start, 0
  {
    hide SkipSpace, ScanValue;
    var index := SkipJsonWhitespace(t, start + 1);
    if Holds(t, index, CLOSE_BRACKET) {
      return Some(Scan(index + 1, false));
    }
    while index < |t|
      invariant start < index <= |t|
      invariant ScanItems(t, index) == ScanArray(t, start)
      decreases |t| - index
    {
      var value := ScanJsonValue(t, index);
      if value.None? || value.value.duplicate {
        return value;
      }
      var next := SkipJsonWhitespace(t, value.value.next);
      if Holds(t, next, CLOSE_BRACKET) {
        return Some(Scan(next + 1, false));
      }
      if !Holds(t, next, COMMA) {
        return None;
      }
      index := SkipJsonWhitespace(t, next + 1);
    }
    return None;
  }

  method HasDuplicateJsonKeys(t: seq<Unit>) returns (duplicate: bool)
    ensures duplicate == HasDuplicateKeys(t)
    ensures forall lead, v, trail :: WellFormed(v) && Spaces(lead) && Spaces(trail) && t == lead + Print(v) + trail ==>
              (duplicate <==> HasDuplicate(v))
  {
    hide WellFormed, Spaces, Print, HasDuplicate, ScanValue;
    var r := ScanJsonValue(t, 0);
    duplicate := r.Some? && r.value.duplicate;
    forall lead, v, trail | WellFormed(v) && Spaces(lead) && Spaces(trail) && t == lead + Print(v) + trail
      ensures duplicate <==> HasDuplicate(v)
    {
      JsonProofs.DuplicatesAreFoundExactly(lead, v, trail);
    }
  }
}
