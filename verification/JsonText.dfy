/** JSON texts as UTF-16 code units: concrete syntax trees with every legal choice of whitespace
    and escapes, their printed form, and which of them repeat a member name (RFC 8259, sections
    2, 4, 6 and 7). */
module JsonText {
  import opened Collections

  const QUOTE: Unit := 0x22
  const BACKSLASH: Unit := 0x5C
  const OPEN_BRACE: Unit := 0x7B
  const CLOSE_BRACE: Unit := 0x7D
  const OPEN_BRACKET: Unit := 0x5B
  const CLOSE_BRACKET: Unit := 0x5D
  const COMMA: Unit := 0x2C
  const COLON: Unit := 0x3A
  const LETTER_U: Unit := 0x75

  const TRUE: seq<Unit> := [0x74, 0x72, 0x75, 0x65]
  const FALSE: seq<Unit> := [0x66, 0x61, 0x6C, 0x73, 0x65]
  const NULL: seq<Unit> := [0x6E, 0x75, 0x6C, 0x6C]

  predicate IsSpace(u: Unit) {
    u == 0x20 || u == 0x09 || u == 0x0A || u == 0x0D
  }

  predicate Spaces(s: seq<Unit>) {
    forall i :: 0 <= i < |s| ==> IsSpace(s[i])
  }

  predicate IsDigit(u: Unit) {
    0x30 <= u <= 0x39
  }

  /** The characters a number may hold; every RFC 8259 number is a nonempty run of them that
      starts with a digit or a minus sign. */
  predicate IsNumberChar(u: Unit) {
    IsDigit(u) || u == 0x2B || u == 0x2D || u == 0x2E || u == 0x45 || u == 0x65
  }

  predicate IsNumberText(s: seq<Unit>) {
    s != [] && (IsDigit(s[0]) || s[0] == 0x2D) && forall i :: 0 <= i < |s| ==> IsNumberChar(s[i])
  }

  function HexValue(u: Unit): Option<nat> {
    if IsDigit(u) then Some(u - 0x30)
    else if 0x41 <= u <= 0x46 then Some(u - 0x41 + 10)
    else if 0x61 <= u <= 0x66 then Some(u - 0x61 + 10)
    else None
  }

  /** The two-character escapes. */
  function SimpleEscape(c: Unit): Option<Unit> {
    if c == QUOTE || c == BACKSLASH || c == 0x2F then Some(c)
    else if c == 0x62 then Some(0x08)
    else if c == 0x66 then Some(0x0C)
    else if c == 0x6E then Some(0x0A)
    else if c == 0x72 then Some(0x0D)
    else if c == 0x74 then Some(0x09)
    else None
  }

  predicate HexQuad(a: Unit, b: Unit, c: Unit, d: Unit) {
    HexValue(a).Some? && HexValue(b).Some? && HexValue(c).Some? && HexValue(d).Some?
  }

  function HexUnit(a: Unit, b: Unit, c: Unit, d: Unit): Unit
    requires HexQuad(a, b, c, d)
  {
    HexValue(a).value * 4096 + HexValue(b).value * 256 + HexValue(c).value * 16 + HexValue(d).value
  }

  // ---------------------------------------------------------------- names

  /** One decoded code unit of a string, however it was written. */
  datatype Piece = Plain(u: Unit) | Escaped(c: Unit) | Hex(a: Unit, b: Unit, c: Unit, d: Unit)

  predicate LegalPiece(p: Piece) {
    match p
    case Plain(u) => u >= 0x20 && u != QUOTE && u != BACKSLASH
    case Escaped(c) => SimpleEscape(c).Some?
    case Hex(a, b, c, d) => HexQuad(a, b, c, d)
  }

  predicate Legal(pieces: seq<Piece>) {
    forall i :: 0 <= i < |pieces| ==> LegalPiece(pieces[i])
  }

  function PieceText(p: Piece): seq<Unit> {
    match p
    case Plain(u) => [u]
    case Escaped(c) => [BACKSLASH, c]
    case Hex(a, b, c, d) => [BACKSLASH, LETTER_U, a, b, c, d]
  }

  function PieceMeaning(p: Piece): Unit
    requires LegalPiece(p)
  {
    match p
    case Plain(u) => u
    case Escaped(c) => SimpleEscape(c).value
    case Hex(a, b, c, d) => HexUnit(a, b, c, d)
  }

  function BodyText(pieces: seq<Piece>): seq<Unit> {
    if pieces == [] then [] else PieceText(pieces[0]) + BodyText(pieces[1..])
  }

  /** The decoded string. */
  function Meaning(pieces: seq<Piece>): seq<Unit>
    requires Legal(pieces)
  {
    if pieces == [] then [] else [PieceMeaning(pieces[0])] + Meaning(pieces[1..])
  }

  function StringText(pieces: seq<Piece>): seq<Unit> {
    [QUOTE] + BodyText(pieces) + [QUOTE]
  }

  // --------------------------------------------------------------- values

  datatype Value =
    | Literal(word: seq<Unit>)
    | Number(digits: seq<Unit>)
    | Text(pieces: seq<Piece>)
    | Array(pad: seq<Unit>, items: Items)
    | Object(pad: seq<Unit>, members: Members)

  /** Nonempty item lists know the whitespace before and after each value. */
  datatype Items = NoItems | Item(before: seq<Unit>, value: Value, after: seq<Unit>, rest: Items)

  datatype Members =
    | NoMembers
    | Member(before: seq<Unit>, name: seq<Piece>, between: seq<Unit>, lead: seq<Unit>, value: Value,
             after: seq<Unit>, rest: Members)

  predicate WellFormed(v: Value) {
    match v
    case Literal(word) => word == TRUE || word == FALSE || word == NULL
    case Number(digits) => IsNumberText(digits)
    case Text(pieces) => Legal(pieces)
    case Array(pad, items) => Spaces(pad) && WellFormedItems(items)
    case Object(pad, members) => Spaces(pad) && WellFormedMembers(members)
  }

  predicate WellFormedItems(items: Items) {
    match items
    case NoItems => true
    case Item(before, value, after, rest) =>
      Spaces(before) && WellFormed(value) && Spaces(after) && WellFormedItems(rest)
  }

  predicate WellFormedMembers(members: Members) {
    match members
    case NoMembers => true
    case Member(before, name, between, lead, value, after, rest) =>
      Spaces(before) && Legal(name) && Spaces(between) && Spaces(lead) && WellFormed(value) && Spaces(after)
        && WellFormedMembers(rest)
  }

  function Print(v: Value): seq<Unit> {
    match v
    case Literal(word) => word
    case Number(digits) => digits
    case Text(pieces) => StringText(pieces)
    case Array(pad, items) =>
      [OPEN_BRACKET]
      + (match items case NoItems => pad case Item(before, _, _, _) => before + PrintItems(items))
      + [CLOSE_BRACKET]
    case Object(pad, members) =>
      [OPEN_BRACE]
      + (match members case NoMembers => pad case Member(before, _, _, _, _, _, _) => before + PrintMembers(members))
      + [CLOSE_BRACE]
  }

  /** Items from the first value on; the whitespace before it is printed by the caller. */
  function PrintItems(items: Items): seq<Unit> {
    match items
    case NoItems => []
    case Item(_, value, after, rest) =>
      Print(value) + (after
        + (match rest case NoItems => [] case Item(before, _, _, _) => [COMMA] + (before + PrintItems(rest))))
  }

  /** Members from the first name on; the whitespace before it is printed by the caller. */
  function PrintMembers(members: Members): seq<Unit> {
    match members
    case NoMembers => []
    case Member(_, name, between, lead, value, after, rest) =>
      StringText(name) + (between + ([COLON] + (lead + (Print(value) + (after +
        (match rest
         case NoMembers => []
         case Member(before, _, _, _, _, _, _) => [COMMA] + (before + PrintMembers(rest))))))))
  }

  // ----------------------------------------------------------- duplicates

  function Names(members: Members): seq<seq<Unit>>
    requires WellFormedMembers(members)
  {
    match members
    case NoMembers => []
    case Member(_, name, _, _, _, _, rest) => [Meaning(name)] + Names(rest)
  }

  ghost predicate Repeats(names: seq<seq<Unit>>) {
    exists i, j :: 0 <= i < j < |names| && names[i] == names[j]
  }

  /** Some object, at some depth, repeats a decoded member name. */
  ghost predicate HasDuplicate(v: Value)
    requires WellFormed(v)
  {
    match v
    case Array(_, items) => ItemsHaveDuplicate(items)
    case Object(_, members) => Repeats(Names(members)) || MembersHaveDuplicate(members)
    case _ => false
  }

  ghost predicate ItemsHaveDuplicate(items: Items)
    requires WellFormedItems(items)
  {
    match items
    case NoItems => false
    case Item(_, value, _, rest) => HasDuplicate(value) || ItemsHaveDuplicate(rest)
  }

  ghost predicate MembersHaveDuplicate(members: Members)
    requires WellFormedMembers(members)
  {
    match members
    case NoMembers => false
    case Member(_, _, _, _, value, _, rest) => HasDuplicate(value) || MembersHaveDuplicate(rest)
  }
}
