/** The scanner judged against JSON text: on every printed value it consumes exactly the print
    when no object repeats a decoded name, and reports a duplicate exactly when one does. */
module JsonProofs {
  import opened Collections
  import opened JsonText
  import opened JsonScan

  /** `x` stands in `t` at position i. */
  ghost predicate At(t: seq<Unit>, i: nat, x: seq<Unit>) {
    i + |x| <= |t| && t[i..i + |x|] == x
  }

  lemma AtSplit(t: seq<Unit>, i: nat, x: seq<Unit>, y: seq<Unit>)
    requires At(t, i, x + y)
    ensures At(t, i, x) && At(t, i + |x|, y)
  {
    var z := x + y;
    assert t[i..i + |z|] == z;
    assert t[i..i + |x|] == z[..|x|];
    assert t[i + |x|..i + |z|] == z[|x|..];
  }

  lemma AtHead(t: seq<Unit>, i: nat, x: seq<Unit>)
    requires At(t, i, x) && x != []
    ensures i < |t| && t[i] == x[0]
  {
    assert t[i..i + |x|][0] == x[0];
  }

  lemma Assoc(a: seq<Unit>, b: seq<Unit>, c: seq<Unit>)
    ensures (a + b) + c == a + (b + c)
  {
  }

  /** An unquoted token ends at i. */
  ghost predicate StopsAt(t: seq<Unit>, i: nat) {
    i >= |t| || IsStop(t[i])
  }

  // -------------------------------------------------------------- spaces

  lemma {:induction false} SkipsSpaces(t: seq<Unit>, i: nat, pad: seq<Unit>)
    requires At(t, i, pad) && Spaces(pad)
    requires i + |pad| < |t| ==> !IsSpace(t[i + |pad|])
    ensures SkipSpace(t, i) == i + |pad|
    decreases |pad|
  {
    if pad != [] {
      AtHead(t, i, pad);
      assert pad == [pad[0]] + pad[1..];
      AtSplit(t, i, [pad[0]], pad[1..]);
      SkipsSpaces(t, i + 1, pad[1..]);
    }
  }

  // -------------------------------------------------------------- strings

  lemma PieceAdvances(t: seq<Unit>, i: nat, p: Piece)
    requires LegalPiece(p) && At(t, i, PieceText(p))
    ensures StringEnd(t, i) == StringEnd(t, i + |PieceText(p)|)
  {
    var x := t[i..i + |PieceText(p)|];
    assert x == PieceText(p) && t[i] == x[0];
    match p
    case Plain(u) =>
    case Escaped(c) =>
    case Hex(a, b, c, d) =>
      assert t[i + 2] == x[2] && t[i + 3] == x[3] && t[i + 4] == x[4] && t[i + 5] == x[5];
      assert StringEnd(t, i + 2) == StringEnd(t, i + 3);
      assert StringEnd(t, i + 3) == StringEnd(t, i + 4);
      assert StringEnd(t, i + 4) == StringEnd(t, i + 5);
  }

  lemma QuoteEnds(t: seq<Unit>, i: nat)
    requires At(t, i, [QUOTE])
    ensures StringEnd(t, i) == Some(i + 1)
  {
    AtHead(t, i, [QUOTE]);
  }

  lemma {:induction false} BodyEnds(t: seq<Unit>, i: nat, pieces: seq<Piece>)
    requires Legal(pieces) && At(t, i, BodyText(pieces) + [QUOTE])
    ensures StringEnd(t, i) == Some(i + |BodyText(pieces)| + 1)
    decreases |pieces|
  {
    hide At, StringEnd, PieceText;
    AtSplit(t, i, BodyText(pieces), [QUOTE]);
    if pieces == [] {
      QuoteEnds(t, i);
    } else {
      var x, rest := PieceText(pieces[0]), BodyText(pieces[1..]);
      assert BodyText(pieces) + [QUOTE] == x + (rest + [QUOTE]);
      AtSplit(t, i, x, rest + [QUOTE]);
      PieceAdvances(t, i, pieces[0]);
      BodyEnds(t, i + |x|, pieces[1..]);
    }
  }

  lemma StringScans(t: seq<Unit>, i: nat, pieces: seq<Piece>)
    requires Legal(pieces) && At(t, i, StringText(pieces))
    ensures ScanString(t, i) == Some(i + |StringText(pieces)|)
    ensures Holds(t, i, QUOTE)
  {
    assert StringText(pieces) == [QUOTE] + (BodyText(pieces) + [QUOTE]);
    AtSplit(t, i, [QUOTE], BodyText(pieces) + [QUOTE]);
    AtHead(t, i, [QUOTE]);
    BodyEnds(t, i + 1, pieces);
  }

  lemma PieceDecodes(p: Piece, rest: seq<Unit>)
    requires LegalPiece(p)
    ensures DecodeBody(PieceText(p) + rest) == Prepend(PieceMeaning(p), DecodeBody(rest))
  {
    var x, s := PieceText(p), PieceText(p) + rest;
    assert s[|x|..] == rest && s[0] == x[0];
    if p.Escaped? {
      assert s[1] == x[1];
    } else if p.Hex? {
      assert s[1] == x[1] && s[2] == x[2] && s[3] == x[3] && s[4] == x[4] && s[5] == x[5];
    }
  }

  lemma {:induction false} BodyDecodes(pieces: seq<Piece>)
    requires Legal(pieces)
    ensures DecodeBody(BodyText(pieces)) == Some(Meaning(pieces))
    decreases |pieces|
  {
    hide PieceText, PieceMeaning, LegalPiece;
    if pieces != [] {
      BodyDecodes(pieces[1..]);
      PieceDecodes(pieces[0], BodyText(pieces[1..]));
    }
  }

  /** Decoding a printed name gives its meaning back, whichever escapes were used. */
  lemma NameRoundTrips(pieces: seq<Piece>)
    requires Legal(pieces)
    ensures DecodeName(StringText(pieces)) == Some(Meaning(pieces))
  {
    BodyDecodes(pieces);
    var raw := StringText(pieces);
    assert raw[1..|raw| - 1] == BodyText(pieces);
  }

  // --------------------------------------------------------------- tokens

  lemma {:induction false} TokenScans(t: seq<Unit>, i: nat, digits: seq<Unit>)
    requires At(t, i, digits) && StopsAt(t, i + |digits|)
    requires forall k :: 0 <= k < |digits| ==> IsNumberChar(digits[k])
    ensures TokenEnd(t, i) == i + |digits|
    decreases |digits|
  {
    if digits != [] {
      AtHead(t, i, digits);
      assert digits == [digits[0]] + digits[1..];
      AtSplit(t, i, [digits[0]], digits[1..]);
      TokenScans(t, i + 1, digits[1..]);
    }
  }

  lemma NumberScans(t: seq<Unit>, i: nat, digits: seq<Unit>)
    requires At(t, i, digits) && IsNumberText(digits) && StopsAt(t, i + |digits|)
    ensures ScanValue(t, i) == Some(Scan(i + |digits|, false))
  {
    AtHead(t, i, digits);
    TokenScans(t, i, digits);
    assert SkipSpace(t, i) == i;
    assert !StartsWith(t, i, TRUE) by { if StartsWith(t, i, TRUE) { AtHead(t, i, TRUE); } }
    assert !StartsWith(t, i, FALSE) by { if StartsWith(t, i, FALSE) { AtHead(t, i, FALSE); } }
    assert !StartsWith(t, i, NULL) by { if StartsWith(t, i, NULL) { AtHead(t, i, NULL); } }
  }

  lemma LiteralScans(t: seq<Unit>, i: nat, word: seq<Unit>)
    requires At(t, i, word) && (word == TRUE || word == FALSE || word == NULL)
    ensures ScanValue(t, i) == Some(Scan(i + |word|, false))
  {
    AtHead(t, i, word);
    assert SkipSpace(t, i) == i;
    if word != TRUE {
      assert !StartsWith(t, i, TRUE) by { if StartsWith(t, i, TRUE) { AtHead(t, i, TRUE); } }
    }
    if word == NULL {
      assert !StartsWith(t, i, FALSE) by { if StartsWith(t, i, FALSE) { AtHead(t, i, FALSE); } }
    }
  }

  lemma PrintStarts(v: Value)
    requires WellFormed(v)
    ensures Print(v) != [] && !IsSpace(Print(v)[0]) && Print(v)[0] != CLOSE_BRACKET
  {
  }

  /** Leading whitespace is skipped before a value. */
  lemma ScanAfterPad(t: seq<Unit>, i: nat, pad: seq<Unit>, v: Value)
    requires Spaces(pad) && WellFormed(v) && At(t, i, pad) && At(t, i + |pad|, Print(v))
    ensures ScanValue(t, i) == ScanValue(t, i + |pad|)
  {
    hide SkipSpace, Print, WellFormed, Spaces, ScanObject, ScanArray, ScanString, StartsWith, TokenEnd, Holds;
    PrintStarts(v);
    AtHead(t, i + |pad|, Print(v));
    SkipsSpaces(t, i, pad);
    SkipsSpaces(t, i + |pad|, []);
  }

  // ---------------------------------------------------------------- names

  /** A name of `members` is already in `keys`, or two of them are equal. */
  ghost predicate Clashes(names: seq<seq<Unit>>, keys: set<seq<Unit>>) {
    Repeats(names) || exists i :: 0 <= i < |names| && names[i] in keys
  }

  lemma ClashComesFromRest(name: seq<Unit>, rest: seq<seq<Unit>>, keys: set<seq<Unit>>)
    requires Clashes(rest, keys + {name})
    ensures Clashes([name] + rest, keys)
  {
    var all := [name] + rest;
    if Repeats(rest) {
      var i, j :| 0 <= i < j < |rest| && rest[i] == rest[j];
      assert all[i + 1] == all[j + 1];
    } else {
      var i :| 0 <= i < |rest| && rest[i] in keys + {name};
      assert all[i + 1] == rest[i] && all[0] == name;
    }
  }

  lemma ClashGoesToRest(name: seq<Unit>, rest: seq<seq<Unit>>, keys: set<seq<Unit>>)
    requires Clashes([name] + rest, keys) && name !in keys
    ensures Clashes(rest, keys + {name})
  {
    var all := [name] + rest;
    if Repeats(all) {
      var i, j :| 0 <= i < j < |all| && all[i] == all[j];
      assert all[j] == rest[j - 1];
      if i > 0 {
        assert rest[i - 1] == rest[j - 1];
      }
    } else {
      var i :| 0 <= i < |all| && all[i] in keys;
      assert all[i] == rest[i - 1];
    }
  }

  lemma ClashesStep(name: seq<Unit>, rest: seq<seq<Unit>>, keys: set<seq<Unit>>)
    ensures Clashes([name] + rest, keys) <==> name in keys || Clashes(rest, keys + {name})
  {
    hide Repeats;
    assert ([name] + rest)[0] == name;
    if Clashes(rest, keys + {name}) {
      ClashComesFromRest(name, rest, keys);
    } else if Clashes([name] + rest, keys) && name !in keys {
      ClashGoesToRest(name, rest, keys);
    }
  }

  // ----------------------------------------------------------- the theorem

  /** The scan found exactly what `v`, printed from i on, holds. */
  ghost predicate Judged(r: Option<Scan>, duplicate: bool, end: nat) {
    r.Some? && (r.value.duplicate <==> duplicate) && (!duplicate ==> r.value.next == end)
  }

  lemma {:induction false} ValueScans(t: seq<Unit>, i: nat, v: Value)
    requires WellFormed(v) && At(t, i, Print(v)) && StopsAt(t, i + |Print(v)|)
    ensures Judged(ScanValue(t, i), HasDuplicate(v), i + |Print(v)|)
    decreases v, 1
  {
    PrintStarts(v);
    AtHead(t, i, Print(v));
    assert SkipSpace(t, i) == i;
    match v
    case Literal(word) => LiteralScans(t, i, word);
    case Number(digits) => NumberScans(t, i, digits);
    case Text(pieces) => StringScans(t, i, pieces);
    case Array(pad, items) => ArrayScans(t, i, v);
    case Object(pad, members) => ObjectScans(t, i, v);
  }

  lemma ArrayShape(v: Value)
    requires v.Array?
    ensures v.items.NoItems? ==> Print(v) == [OPEN_BRACKET] + (v.pad + [CLOSE_BRACKET])
    ensures v.items.Item? ==> Print(v) == [OPEN_BRACKET] + (v.items.before + (PrintItems(v.items) + [CLOSE_BRACKET]))
  {
  }

  lemma {:induction false} ArrayScans(t: seq<Unit>, i: nat, v: Value)
    requires v.Array? && WellFormed(v) && At(t, i, Print(v)) && i < |t|
    ensures Judged(ScanArray(t, i), HasDuplicate(v), i + |Print(v)|)
    decreases v, 0
  {
    hide At, SkipSpace, ScanItems, Print;
    ArrayShape(v);
    if v.items.NoItems? {
      OpenLayout(t, i, OPEN_BRACKET, v.pad, [CLOSE_BRACKET]);
    } else {
      var items := v.items;
      ItemsShape(items);
      PrintStarts(items.value);
      OpenLayout(t, i, OPEN_BRACKET, items.before, PrintItems(items) + [CLOSE_BRACKET]);
      ItemsScan(t, i + 1 + |items.before|, items);
    }
  }

  /** What follows a value and the whitespace after it: the closing bracket or the next item. */
  ghost function ItemTail(rest: Items): seq<Unit> {
    match rest
    case NoItems => [CLOSE_BRACKET]
    case Item(before, _, _, _) => [COMMA] + (before + (PrintItems(rest) + [CLOSE_BRACKET]))
  }

  lemma ItemsShape(items: Items)
    requires items.Item?
    ensures PrintItems(items) + [CLOSE_BRACKET] == Print(items.value) + (items.after + ItemTail(items.rest))
    ensures |PrintItems(items)| + 1 == |Print(items.value)| + |items.after| + |ItemTail(items.rest)|
  {
    hide Print;
    var close := [CLOSE_BRACKET];
    var tail := if items.rest.NoItems? then [] else [COMMA] + (items.rest.before + PrintItems(items.rest));
    if items.rest.Item? {
      Assoc([COMMA], items.rest.before + PrintItems(items.rest), close);
      Assoc(items.rest.before, PrintItems(items.rest), close);
    }
    assert tail + close == ItemTail(items.rest);
    Assoc(items.after, tail, close);
    Assoc(Print(items.value), items.after + tail, close);
  }

  lemma ItemTailStops(rest: Items)
    ensures ItemTail(rest) != [] && IsStop(ItemTail(rest)[0]) && !IsSpace(ItemTail(rest)[0])
    ensures ItemTail(rest)[0] == if rest.NoItems? then CLOSE_BRACKET else COMMA
  {
  }

  /** A value, whitespace, and something that is not whitespace, in a row. */
  lemma ValueLayout(t: seq<Unit>, i: nat, v: Value, after: seq<Unit>, tail: seq<Unit>)
    requires At(t, i, Print(v) + (after + tail)) && Spaces(after) && tail != [] && IsStop(tail[0]) && !IsSpace(tail[0])
    ensures At(t, i, Print(v)) && StopsAt(t, i + |Print(v)|)
    ensures SkipSpace(t, i + |Print(v)|) == i + |Print(v)| + |after|
    ensures At(t, i + |Print(v)| + |after|, tail) && Holds(t, i + |Print(v)| + |after|, tail[0])
  {
    hide At, Print, SkipSpace;
    AtSplit(t, i, Print(v), after + tail);
    var end := i + |Print(v)|;
    AtSplit(t, end, after, tail);
    AtHead(t, end, after + tail);
    AtHead(t, end + |after|, tail);
    SkipsSpaces(t, end, after);
  }

  /** A comma or an opening bracket, whitespace, and something that is not whitespace, in a row. */
  lemma OpenLayout(t: seq<Unit>, i: nat, open: Unit, before: seq<Unit>, next: seq<Unit>)
    requires At(t, i, [open] + (before + next)) && Spaces(before) && next != [] && !IsSpace(next[0])
    ensures SkipSpace(t, i + 1) == i + 1 + |before| && At(t, i + 1 + |before|, next)
            && Holds(t, i + 1 + |before|, next[0])
    ensures i < |t|
  {
    AtSplit(t, i, [open], before + next);
    AtSplit(t, i + 1, before, next);
    AtHead(t, i + 1 + |before|, next);
    SkipsSpaces(t, i + 1, before);
  }

  lemma LastTailIsOne(rest: Items)
    requires rest.NoItems?
    ensures |ItemTail(rest)| == 1
  {
  }

  /** Where an item, and what follows it, stand. */
  lemma ItemLayout(t: seq<Unit>, i: nat, items: Items)
    requires items.Item? && WellFormedItems(items) && At(t, i, PrintItems(items) + [CLOSE_BRACKET])
    ensures var end := i + |Print(items.value)|; var j := end + |items.after|;
            && i < |t| && WellFormed(items.value) && At(t, i, Print(items.value)) && StopsAt(t, end)
            && SkipSpace(t, end) == j && At(t, j, ItemTail(items.rest)) && Holds(t, j, ItemTail(items.rest)[0])
            && i + |PrintItems(items)| + 1 == j + |ItemTail(items.rest)|
  {
    hide At, StopsAt, Holds, SkipSpace, Print, PrintItems, ItemTail, WellFormed, Spaces, IsStop, IsSpace;
    ItemsShape(items);
    ItemTailStops(items.rest);
    ValueLayout(t, i, items.value, items.after, ItemTail(items.rest));
    PrintStarts(items.value);
    AtHead(t, i, Print(items.value));
  }

  /** After a comma the next value is where the loop continues. */
  lemma NextItemLayout(t: seq<Unit>, j: nat, rest: Items)
    requires rest.Item? && WellFormedItems(rest) && At(t, j, ItemTail(rest))
    ensures var k := j + 1 + |rest.before|;
            && SkipSpace(t, j + 1) == k && At(t, k, PrintItems(rest) + [CLOSE_BRACKET])
            && j + |ItemTail(rest)| == k + |PrintItems(rest)| + 1
  {
    hide At, SkipSpace, Print, PrintItems, WellFormed, Spaces, Holds, IsSpace;
    ItemsShape(rest);
    PrintStarts(rest.value);
    OpenLayout(t, j, COMMA, rest.before, PrintItems(rest) + [CLOSE_BRACKET]);
  }

  /** One round of the item loop. */
  lemma ScanItemsUnfolds(t: seq<Unit>, i: nat)
    requires i < |t| && ScanValue(t, i).Some?
    ensures var value := ScanValue(t, i).value; var j := SkipSpace(t, value.next);
            && (value.duplicate ==> ScanItems(t, i) == ScanValue(t, i))
            && (!value.duplicate && Holds(t, j, CLOSE_BRACKET) ==> ScanItems(t, i) == Some(Scan(j + 1, false)))
            && (!value.duplicate && Holds(t, j, COMMA) ==> ScanItems(t, i) == ScanItems(t, SkipSpace(t, j + 1)))
  {
    hide ScanValue, SkipSpace;
  }

  lemma {:induction false} ItemsScan(t: seq<Unit>, i: nat, items: Items)
    requires items.Item? && WellFormedItems(items) && At(t, i, PrintItems(items) + [CLOSE_BRACKET])
    ensures Judged(ScanItems(t, i), ItemsHaveDuplicate(items), i + |PrintItems(items)| + 1)
    decreases items, 1
  {
    hide At, StopsAt, Holds, SkipSpace, ScanValue, ScanItems, Print, PrintItems, ItemTail, HasDuplicate, WellFormed,
      Spaces;
    ItemLayout(t, i, items);
    ItemTailStops(items.rest);
    ValueScans(t, i, items.value);
    ScanItemsUnfolds(t, i);
    if items.rest.NoItems? {
      assert |ItemTail(items.rest)| == 1 by { LastTailIsOne(items.rest); }
    }
    if !HasDuplicate(items.value) && items.rest.Item? {
      var j := i + |Print(items.value)| + |items.after|;
      NextItemLayout(t, j, items.rest);
      ItemsScan(t, j + 1 + |items.rest.before|, items.rest);
    }
  }

  lemma ObjectShape(v: Value)
    requires v.Object?
    ensures v.members.NoMembers? ==> Print(v) == [OPEN_BRACE] + (v.pad + [CLOSE_BRACE])
    ensures v.members.Member? ==>
            Print(v) == [OPEN_BRACE] + (v.members.before + (PrintMembers(v.members) + [CLOSE_BRACE]))
    ensures v.members.Member? ==> |Print(v)| == |v.members.before| + |PrintMembers(v.members)| + 2
  {
    hide PrintMembers;
    var open, close := [OPEN_BRACE], [CLOSE_BRACE];
    if v.members.Member? {
      Assoc(open, v.members.before + PrintMembers(v.members), close);
      Assoc(v.members.before, PrintMembers(v.members), close);
    } else {
      Assoc(open, v.pad, close);
    }
  }

  lemma ObjectParts(v: Value)
    requires v.Object? && WellFormed(v)
    ensures Spaces(v.pad) && WellFormedMembers(v.members)
    ensures v.members.Member? ==> Spaces(v.members.before)
    ensures HasDuplicate(v) <==> Clashes(Names(v.members), {}) || MembersHaveDuplicate(v.members)
    ensures v.members.NoMembers? ==> !HasDuplicate(v)
  {
    hide MembersHaveDuplicate, Spaces;
    if v.members.NoMembers? {
      NoMembersNoDuplicate(v.members, {});
    }
  }

  lemma {:induction false} ObjectScans(t: seq<Unit>, i: nat, v: Value)
    requires v.Object? && WellFormed(v) && At(t, i, Print(v)) && i < |t|
    ensures Judged(ScanObject(t, i), HasDuplicate(v), i + |Print(v)|)
    decreases v, 0
  {
    hide At, SkipSpace, ScanMembers, Print, PrintMembers, Clashes, Names, HasDuplicate, MembersHaveDuplicate,
      WellFormed, WellFormedMembers, Spaces;
    ObjectShape(v);
    ObjectParts(v);
    if v.members.NoMembers? {
      OpenLayout(t, i, OPEN_BRACE, v.pad, [CLOSE_BRACE]);
    } else {
      var members := v.members;
      MembersShape(members);
      OpenLayout(t, i, OPEN_BRACE, members.before, PrintMembers(members) + [CLOSE_BRACE]);
      MembersScan(t, i + 1 + |members.before|, members, {});
    }
  }

  /** What follows a member value and the whitespace after it. */
  ghost function MemberTail(rest: Members): seq<Unit> {
    match rest
    case NoMembers => [CLOSE_BRACE]
    case Member(before, _, _, _, _, _, _) => [COMMA] + (before + (PrintMembers(rest) + [CLOSE_BRACE]))
  }

  /** The text of a member list after its first name and colon. */
  ghost function AfterColon(m: Members): seq<Unit>
    requires m.Member?
  {
    m.lead + (Print(m.value) + (m.after + MemberTail(m.rest)))
  }

  lemma MembersShape(m: Members)
    requires m.Member?
    ensures PrintMembers(m) + [CLOSE_BRACE] == StringText(m.name) + (m.between + ([COLON] + AfterColon(m)))
    ensures PrintMembers(m) != [] && PrintMembers(m)[0] == QUOTE
    ensures |PrintMembers(m)| == |StringText(m.name)| + |m.between| + |AfterColon(m)|
  {
    hide Print;
    var close := [CLOSE_BRACE];
    var tail := if m.rest.NoMembers? then [] else [COMMA] + (m.rest.before + PrintMembers(m.rest));
    if m.rest.Member? {
      Assoc([COMMA], m.rest.before + PrintMembers(m.rest), close);
      Assoc(m.rest.before, PrintMembers(m.rest), close);
    }
    assert tail + close == MemberTail(m.rest);
    var value := Print(m.value) + (m.after + tail);
    Assoc(m.after, tail, close);
    Assoc(Print(m.value), m.after + tail, close);
    Assoc(m.lead, value, close);
    assert (m.lead + value) + close == AfterColon(m);
    MembersShapeEnds(m, value);
  }

  lemma MembersShapeEnds(m: Members, value: seq<Unit>)
    requires m.Member? && (m.lead + value) + [CLOSE_BRACE] == AfterColon(m)
    requires PrintMembers(m) == StringText(m.name) + (m.between + ([COLON] + (m.lead + value)))
    ensures PrintMembers(m) + [CLOSE_BRACE] == StringText(m.name) + (m.between + ([COLON] + AfterColon(m)))
    ensures PrintMembers(m) != [] && PrintMembers(m)[0] == QUOTE
    ensures |PrintMembers(m)| == |StringText(m.name)| + |m.between| + |AfterColon(m)|
  {
    hide AfterColon, PrintMembers, BodyText;
    var name, colon, rest, close := StringText(m.name), [COLON], m.lead + value, [CLOSE_BRACE];
    Assoc(colon, rest, close);
    Assoc(m.between, colon + rest, close);
    Assoc(name, m.between + (colon + rest), close);
    assert |rest| + 1 == |AfterColon(m)|;
    assert name[0] == QUOTE;
  }

  /** A name, whitespace and a colon, in a row. */
  lemma NameLayout(t: seq<Unit>, i: nat, name: seq<Piece>, between: seq<Unit>, rest: seq<Unit>)
    requires Legal(name) && Spaces(between) && At(t, i, StringText(name) + (between + ([COLON] + rest)))
    ensures var end := i + |StringText(name)|;
            && ScanString(t, i) == Some(end) && t[i..end] == StringText(name)
            && SkipSpace(t, end) == end + |between| && Holds(t, end + |between|, COLON)
            && At(t, end + |between| + 1, rest)
  {
    AtSplit(t, i, StringText(name), between + ([COLON] + rest));
    StringScans(t, i, name);
    var end := i + |StringText(name)|;
    AtSplit(t, end, between, [COLON] + rest);
    AtHead(t, end + |between|, [COLON] + rest);
    AtSplit(t, end + |between|, [COLON], rest);
    SkipsSpaces(t, end, between);
  }

  lemma ScanMembersUnfolds(t: seq<Unit>, i: nat, end: nat, name: seq<Unit>, colon: nat, keys: set<seq<Unit>>)
    requires ScanString(t, i) == Some(end) && DecodeName(t[i..end]) == Some(name)
    requires SkipSpace(t, end) == colon && Holds(t, colon, COLON)
    ensures ScanMembers(t, i, keys) == if name in keys then Some(Scan(end, true))
            else ScanTail(t, colon + 1, keys + {name})
  {
    hide ScanString, DecodeName, SkipSpace, ScanValue;
  }

  lemma {:induction false} MembersScan(t: seq<Unit>, i: nat, m: Members, keys: set<seq<Unit>>)
    requires m.Member? && WellFormedMembers(m) && At(t, i, PrintMembers(m) + [CLOSE_BRACE])
    ensures Judged(ScanMembers(t, i, keys), Clashes(Names(m), keys)
            || MembersHaveDuplicate(m), i + |PrintMembers(m)| + 1)
    decreases m, 1
  {
    hide At, SkipSpace, ScanValue, ScanString, ScanMembers, ScanTail, DecodeName, Print, PrintMembers, AfterColon,
      StringText, Meaning, HasDuplicate, WellFormed, Clashes, Legal, Spaces;
    MembersShape(m);
    var end := i + |StringText(m.name)|;
    var colon := end + |m.between|;
    assert i + |PrintMembers(m)| + 1 == colon + 1 + |AfterColon(m)|;
    NameLayout(t, i, m.name, m.between, AfterColon(m));
    NameRoundTrips(m.name);
    ScanMembersUnfolds(t, i, end, Meaning(m.name), colon, keys);
    ClashesStep(Meaning(m.name), Names(m.rest), keys);
    if Meaning(m.name) !in keys {
      MemberValueScans(t, colon + 1, m, keys + {Meaning(m.name)});
    }
  }

  /** What ScanMembers does after a colon. */
  ghost function ScanTail(t: seq<Unit>, i: nat, keys: set<seq<Unit>>): Option<Scan>
    requires i <= |t|
  {
    var value := ScanValue(t, i);
    if value.None? || value.value.duplicate then value
    else
      var j := SkipSpace(t, value.value.next);
      if Holds(t, j, CLOSE_BRACE) then Some(Scan(j + 1, false))
      else if !Holds(t, j, COMMA) then None
      else ScanMembers(t, SkipSpace(t, j + 1), keys)
  }

  /** One round of the member loop, from its colon on. */
  lemma ScanTailUnfolds(t: seq<Unit>, i: nat, keys: set<seq<Unit>>)
    requires i <= |t| && ScanValue(t, i).Some?
    ensures var value := ScanValue(t, i).value; var j := SkipSpace(t, value.next);
            && (value.duplicate ==> ScanTail(t, i, keys) == ScanValue(t, i))
            && (!value.duplicate && Holds(t, j, CLOSE_BRACE) ==> ScanTail(t, i, keys) == Some(Scan(j + 1, false)))
            && (!value.duplicate && Holds(t, j, COMMA) ==>
              ScanTail(t, i, keys) == ScanMembers(t, SkipSpace(t, j + 1), keys))
  {
    hide ScanValue, SkipSpace, ScanMembers;
  }

  lemma NoMembersNoDuplicate(m: Members, keys: set<seq<Unit>>)
    requires m.NoMembers?
    ensures !Clashes(Names(m), keys) && !MembersHaveDuplicate(m) && |MemberTail(m)| == 1
  {
  }

  /** Where the parts of a member after its colon stand. */
  lemma AfterColonLayout(t: seq<Unit>, i: nat, m: Members)
    requires m.Member? && WellFormedMembers(m) && At(t, i, AfterColon(m))
    ensures var start := i + |m.lead|; var end := start + |Print(m.value)|; var j := end + |m.after|;
            && ScanValue(t, i) == ScanValue(t, start) && At(t, start, Print(m.value)) && StopsAt(t, end)
            && SkipSpace(t, end) == j && At(t, j, MemberTail(m.rest)) && Holds(t, j, MemberTail(m.rest)[0])
            && i + |AfterColon(m)| == j + |MemberTail(m.rest)|
  {
    hide At, StopsAt, Holds, SkipSpace, ScanValue, Print, MemberTail, Spaces, WellFormed, IsStop, IsSpace;
    TailStops(m.rest);
    var tail := m.after + MemberTail(m.rest);
    AtSplit(t, i, m.lead, Print(m.value) + tail);
    var start := i + |m.lead|;
    ValueLayout(t, start, m.value, m.after, MemberTail(m.rest));
    ScanAfterPad(t, i, m.lead, m.value);
  }

  lemma TailStops(rest: Members)
    ensures MemberTail(rest) != [] && IsStop(MemberTail(rest)[0]) && !IsSpace(MemberTail(rest)[0])
    ensures MemberTail(rest)[0] == if rest.NoMembers? then CLOSE_BRACE else COMMA
  {
  }

  /** After a comma the next member's name is where the loop continues. */
  lemma NextMemberLayout(t: seq<Unit>, j: nat, rest: Members)
    requires rest.Member? && WellFormedMembers(rest) && At(t, j, MemberTail(rest))
    ensures var k := j + 1 + |rest.before|;
            && SkipSpace(t, j + 1) == k && At(t, k, PrintMembers(rest) + [CLOSE_BRACE])
            && MemberTail(rest)[0] == COMMA && j + |MemberTail(rest)| == k + |PrintMembers(rest)| + 1
  {
    hide At, SkipSpace, PrintMembers;
    MembersShape(rest);
    OpenLayout(t, j, COMMA, rest.before, PrintMembers(rest) + [CLOSE_BRACE]);
  }

  /** From after the colon: the value, then the end of the object or its next member. */
  lemma {:induction false} MemberValueScans(t: seq<Unit>, i: nat, m: Members, keys: set<seq<Unit>>)
    requires m.Member? && WellFormedMembers(m) && At(t, i, AfterColon(m))
    ensures Judged(ScanTail(t, i, keys), HasDuplicate(m.value) || Clashes(Names(m.rest), keys)
            || MembersHaveDuplicate(m.rest),
                   i + |AfterColon(m)|)
    decreases m, 0
  {
    hide At, StopsAt, Holds, SkipSpace, ScanValue, ScanMembers, ScanTail, Print, PrintMembers, AfterColon, MemberTail,
      HasDuplicate, WellFormed, Clashes, Names, MembersHaveDuplicate, Legal, Spaces;
    AfterColonLayout(t, i, m);
    TailStops(m.rest);
    ValueScans(t, i + |m.lead|, m.value);
    ScanTailUnfolds(t, i, keys);
    if m.rest.NoMembers? {
      NoMembersNoDuplicate(m.rest, keys);
    } else {
      var j := i + |m.lead| + |Print(m.value)| + |m.after|;
      NextMemberLayout(t, j, m.rest);
      MembersScan(t, j + 1 + |m.rest.before|, m.rest, keys);
    }
  }

  /** For every JSON value with any surrounding whitespace, the scanner's answer is the truth. */
  lemma DuplicatesAreFoundExactly(lead: seq<Unit>, v: Value, trail: seq<Unit>)
    requires WellFormed(v) && Spaces(lead) && Spaces(trail)
    ensures HasDuplicateKeys(lead + Print(v) + trail) <==> HasDuplicate(v)
    ensures !HasDuplicate(v) ==> ScanValue(lead + Print(v) + trail, 0) == Some(Scan(|lead| + |Print(v)|, false))
  {
    hide At, SkipSpace, ScanValue, Print, HasDuplicate, WellFormed;
    var t := lead + Print(v) + trail;
    Placed(lead, Print(v), trail);
    assert |lead| + |Print(v)| < |t| ==> t[|lead| + |Print(v)|] == trail[0];
    ScanAfterPad(t, 0, lead, v);
    ValueScans(t, |lead|, v);
  }

  lemma Placed(x: seq<Unit>, y: seq<Unit>, z: seq<Unit>)
    ensures At(x + y + z, 0, x) && At(x + y + z, |x|, y)
  {
    var t := x + y + z;
    assert t[0..|x|] == x && t[|x|..|x| + |y|] == y;
  }
}
