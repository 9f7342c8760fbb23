/** What the JSON spelling rules mean: hexadecimal digits, which string tokens decode and to what, and
    that nesting hides no duplicate. */
module JsonLaws {
  import opened Collections
  import opened JsonText
  import opened JsonScan
  import opened JsonProofs

  /** The sixteen digits in both cases, and no other character. */
  const UPPER: string := "0123456789ABCDEF"
  const LOWER: string := "0123456789abcdef"

  lemma HexDigitsExactly(u: Unit, value: nat)
    ensures HexValue(u) == Some(value) <==>
            value < 16 && (u as int == UPPER[value] as int || u as int == LOWER[value] as int)
  {
  }

  /** Some legal spelling of `meaning` is the text. */
  ghost predicate Spells(text: seq<Unit>, meaning: seq<Unit>) {
    exists pieces :: Legal(pieces) && BodyText(pieces) == text && Meaning(pieces) == meaning
  }

  lemma SpellsCons(p: Piece, text: seq<Unit>, meaning: seq<Unit>)
    requires LegalPiece(p) && Spells(text, meaning)
    ensures Spells(PieceText(p) + text, [PieceMeaning(p)] + meaning)
  {
    hide LegalPiece, PieceText, PieceMeaning;
    var rest :| Legal(rest) && BodyText(rest) == text && Meaning(rest) == meaning;
    var pieces := [p] + rest;
    assert pieces[1..] == rest;
    assert Legal(pieces) && BodyText(pieces) == PieceText(p) + text && Meaning(pieces) == [PieceMeaning(p)] + meaning;
  }

  /** The inside of a string token decodes to a string exactly when it is a legal spelling of it, so
      two spellings are the same name exactly when they have the same meaning. */
  lemma DecodesExactly(text: seq<Unit>, meaning: seq<Unit>)
    ensures DecodeBody(text) == Some(meaning) <==> Spells(text, meaning)
  {
    if DecodeBody(text) == Some(meaning) {
      DecodedIsSpelled(text);
    }
    if pieces :| Legal(pieces) && BodyText(pieces) == text && Meaning(pieces) == meaning {
      BodyDecodes(pieces);
    }
  }

  /** The first piece of a text that decodes. */
  function FirstPiece(s: seq<Unit>): (p: Piece)
    requires s != []
  {
    if s[0] != BACKSLASH then Plain(s[0])
    else if |s| >= 6 && s[1] == LETTER_U && HexQuad(s[2], s[3], s[4], s[5]) then Hex(s[2], s[3], s[4], s[5])
    else if |s| >= 2 then Escaped(s[1]) else Plain(s[0])
  }

  lemma FirstPieceIsLegal(s: seq<Unit>)
    requires s != [] && DecodeBody(s).Some?
    ensures var p := FirstPiece(s); var x := PieceText(p);
            && LegalPiece(p) && 0 < |x| <= |s| && s == x + s[|x|..] && DecodeBody(s[|x|..]).Some?
            && DecodeBody(s).value == [PieceMeaning(p)] + DecodeBody(s[|x|..]).value
  {
    var x := PieceText(FirstPiece(s));
    assert |x| <= |s|;
    assert forall k :: 0 <= k < |x| ==> x[k] == s[k];
    assert s[..|x|] == x;
  }

  lemma {:induction false} DecodedIsSpelled(s: seq<Unit>)
    requires DecodeBody(s).Some?
    ensures Spells(s, DecodeBody(s).value)
    decreases |s|
  {
    hide DecodeBody, PieceText, PieceMeaning, LegalPiece, FirstPiece;
    if s == [] {
      EmptyIsSpelled();
    } else {
      FirstPieceIsLegal(s);
      var p := FirstPiece(s);
      var rest := s[|PieceText(p)|..];
      DecodedIsSpelled(rest);
      SpellsCons(p, rest, DecodeBody(rest).value);
    }
  }

  lemma EmptyIsSpelled()
    ensures DecodeBody([]) == Some([]) && Spells([], [])
  {
    assert Legal([]) && BodyText([]) == [] && Meaning([]) == [];
  }

  // -------------------------------------------------------------- nesting

  /** The value as the second item of an array, or as the one member of an object. */
  function Layer(v: Value, name: seq<Piece>, list: bool): Value {
    if list then Array([], Item([], Literal(NULL), [], Item([], v, [], NoItems)))
    else Object([], Member([], name, [], [], v, [], NoMembers))
  }

  lemma LayerKeeps(v: Value, name: seq<Piece>, list: bool)
    requires WellFormed(v) && Legal(name)
    ensures WellFormed(Layer(v, name, list)) && (HasDuplicate(Layer(v, name, list)) <==> HasDuplicate(v))
  {
    hide Legal, Meaning;
    if list {
      var last := Item([], v, [], NoItems);
      assert WellFormedItems(NoItems) && WellFormedItems(last);
      assert ItemsHaveDuplicate(last) <==> HasDuplicate(v);
      assert WellFormedItems(Item([], Literal(NULL), [], last));
      assert ItemsHaveDuplicate(Item([], Literal(NULL), [], last)) <==> HasDuplicate(v);
    } else {
      var only := Member([], name, [], [], v, [], NoMembers);
      assert WellFormedMembers(NoMembers) && WellFormedMembers(only);
      assert |Names(only)| == 1;
      assert !MembersHaveDuplicate(NoMembers) && (MembersHaveDuplicate(only) <==> HasDuplicate(v));
    }
  }

  /** The value inside `depth` layers, objects and arrays in turn. */
  function Nested(v: Value, name: seq<Piece>, depth: nat): Value {
    if depth == 0 then v else Layer(Nested(v, name, depth - 1), name, depth % 2 == 0)
  }

  lemma {:induction false} NestedKeeps(v: Value, name: seq<Piece>, depth: nat)
    requires WellFormed(v) && Legal(name)
    ensures WellFormed(Nested(v, name, depth)) && (HasDuplicate(Nested(v, name, depth)) <==> HasDuplicate(v))
  {
    hide WellFormed, HasDuplicate, Legal, Layer;
    if depth > 0 {
      NestedKeeps(v, name, depth - 1);
      LayerKeeps(Nested(v, name, depth - 1), name, depth % 2 == 0);
    }
  }

  /** However deep a value is nested, the scanner finds its duplicates and no others. */
  lemma NestingHidesNothing(v: Value, name: seq<Piece>, depth: nat)
    requires WellFormed(v) && Legal(name)
    ensures HasDuplicateKeys(Print(Nested(v, name, depth))) <==> HasDuplicate(v)
  {
    hide HasDuplicateKeys, Print, Legal, WellFormed, HasDuplicate, Nested;
    var nested := Nested(v, name, depth);
    NestedKeeps(v, name, depth);
    DuplicatesAreFoundExactly([], nested, []);
    assert [] + Print(nested) + [] == Print(nested);
  }
}
