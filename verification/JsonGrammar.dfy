/** The grammar of JSON texts as RFC 8259 gives it, with all its spacing, escapes and numbers, and
    the values that they stand for (src/base/Json.cpp reads them). */
module JsonGrammar {
  import opened Machine
  import opened Json
  import opened JsonRoundTrip
  import JsonNumbers

  // ---------------------------------------------------------------------
  // Syntax trees
  // ---------------------------------------------------------------------

  /** Section 7: a byte as it is, one of the two-character escapes, one \u escape, or two that
      form a surrogate pair. */
  datatype Char =
    | Plain(byte: byte)
    | Short(letter: byte)
    | Unit(hex: seq<byte>)
    | Pair(high: seq<byte>, low: seq<byte>)

  datatype Syntax =
    | NullWord
    | TrueWord
    | FalseWord
    | Numeral(n: JsonNumbers.Number)
    | Quoted(chars: seq<Char>)
    | List(space: seq<byte>, items: seq<Item>)
    | Table(space: seq<byte>, entries: seq<Entry>)

  /** A value with the spaces around it. */
  datatype Item = Item(before: seq<byte>, item: Syntax, after: seq<byte>)

  datatype Entry = Entry(
    before: seq<byte>,
    key: seq<Char>,
    beforeColon: seq<byte>,
    afterColon: seq<byte>,
    item: Syntax,
    after: seq<byte>)

  datatype Document = Document(before: seq<byte>, root: Syntax, after: seq<byte>)

  // ---------------------------------------------------------------------
  // Strings
  // ---------------------------------------------------------------------

  predicate AllSpace(space: seq<byte>) {
    forall i :: 0 <= i < |space| ==> IsSpace(space[i])
  }

  predicate IsHex(c: byte) {
    0x30 <= c <= 0x39 || 0x41 <= c <= 0x46 || 0x61 <= c <= 0x66
  }

  function HexOf(c: byte): nat
    requires IsHex(c)
  {
    if c <= 0x39 then c - 0x30 else if c <= 0x46 then c - 0x41 + 10 else c - 0x61 + 10
  }

  predicate FourHex(hex: seq<byte>) {
    |hex| == 4 && IsHex(hex[0]) && IsHex(hex[1]) && IsHex(hex[2]) && IsHex(hex[3])
  }

  function UnitOf(hex: seq<byte>): nat
    requires FourHex(hex)
  {
    ((HexOf(hex[0]) * 16 + HexOf(hex[1])) * 16 + HexOf(hex[2])) * 16 + HexOf(hex[3])
  }

  predicate IsHigh(unit: nat) {
    0xd800 <= unit <= 0xdbff
  }

  predicate IsLow(unit: nat) {
    0xdc00 <= unit <= 0xdfff
  }

  /** The two-character escapes and what they stand for. */
  function ShortOf(letter: byte): Option<byte> {
    if letter == 0x22 then Some(0x22)
    else if letter == 0x5c then Some(0x5c)
    else if letter == 0x2f then Some(0x2f)
    else if letter == 0x62 then Some(0x08)
    else if letter == 0x66 then Some(0x0c)
    else if letter == 0x6e then Some(0x0a)
    else if letter == 0x72 then Some(0x0d)
    else if letter == 0x74 then Some(0x09)
    else None
  }

  predicate ValidChar(c: Char) {
    match c
    case Plain(b) => b >= 0x20 && b != 0x22 && b != 0x5c
    case Short(letter) => ShortOf(letter).Some?
    case Unit(hex) => FourHex(hex) && !IsHigh(UnitOf(hex)) && !IsLow(UnitOf(hex))
    case Pair(high, low) => FourHex(high) && FourHex(low) && IsHigh(UnitOf(high)) && IsLow(UnitOf(low))
  }

  function UnitText(hex: seq<byte>): seq<byte> {
    [BACKSLASH, 0x75] + hex
  }

  function CharText(c: Char): seq<byte> {
    match c
    case Plain(b) => [b]
    case Short(letter) => [BACKSLASH, letter]
    case Unit(hex) => UnitText(hex)
    case Pair(high, low) => UnitText(high) + UnitText(low)
  }

  /** The bytes a character stands for: code points are stored as UTF-8. */
  function CharBytes(c: Char): seq<byte>
    requires ValidChar(c)
  {
    match c
    case Plain(b) => [b]
    case Short(letter) => [ShortOf(letter).value]
    case Unit(hex) => UnitBound(hex); Utf8(UnitOf(hex))
    case Pair(high, low) => Utf8(0x1_0000 + 0x400 * (UnitOf(high) - 0xd800) + (UnitOf(low) - 0xdc00))
  }

  lemma UnitBound(hex: seq<byte>)
    requires FourHex(hex)
    ensures UnitOf(hex) < 0x1_0000
  {
  }

  predicate ValidChars(chars: seq<Char>) {
    forall i :: 0 <= i < |chars| ==> ValidChar(chars[i])
  }

  function CharsTo(chars: seq<Char>, rest: seq<byte>): seq<byte> {
    if chars == [] then rest else CharText(chars[0]) + CharsTo(chars[1..], rest)
  }

  function CharsBytes(chars: seq<Char>): seq<byte>
    requires ValidChars(chars)
  {
    if chars == [] then [] else CharBytes(chars[0]) + CharsBytes(chars[1..])
  }

  // ---------------------------------------------------------------------
  // Texts and values
  // ---------------------------------------------------------------------

  function QuotedTo(chars: seq<Char>, rest: seq<byte>): seq<byte> {
    [QUOTE] + CharsTo(chars, [QUOTE] + rest)
  }

  /** The text of a tree, in front of what follows it. */
  function SyntaxTo(s: Syntax, rest: seq<byte>): seq<byte>
    decreases s, 0
  {
    match s
    case NullWord => [0x6e, 0x75, 0x6c, 0x6c] + rest
    case TrueWord => [0x74, 0x72, 0x75, 0x65] + rest
    case FalseWord => [0x66, 0x61, 0x6c, 0x73, 0x65] + rest
    case Numeral(n) => JsonNumbers.Text(n) + rest
    case Quoted(chars) => QuotedTo(chars, rest)
    case List(space, items) =>
      [OPEN_ARRAY] + (if items == [] then space + ([CLOSE_ARRAY] + rest) else ListTo(items, rest))
    case Table(space, entries) =>
      [OPEN_OBJECT] + (if entries == [] then space + ([CLOSE_OBJECT] + rest) else EntriesTo(entries, rest))
  }

  function ListTo(items: seq<Item>, rest: seq<byte>): seq<byte>
    requires items != []
    decreases items, 1
  {
    items[0].before + SyntaxTo(items[0].item, items[0].after + AfterListed(items, rest))
  }

  function AfterListed(items: seq<Item>, rest: seq<byte>): seq<byte>
    requires items != []
    decreases items, 0
  {
    if |items| == 1 then [CLOSE_ARRAY] + rest else [COMMA] + ListTo(items[1..], rest)
  }

  function EntriesTo(entries: seq<Entry>, rest: seq<byte>): seq<byte>
    requires entries != []
    decreases entries, 1
  {
    var e := entries[0];
    e.before + QuotedTo(e.key, ColonTo(e, SyntaxTo(e.item, e.after + AfterEntry(entries, rest))))
  }

  function ColonTo(e: Entry, rest: seq<byte>): seq<byte> {
    e.beforeColon + ([COLON] + (e.afterColon + rest))
  }

  function AfterEntry(entries: seq<Entry>, rest: seq<byte>): seq<byte>
    requires entries != []
    decreases entries, 0
  {
    if |entries| == 1 then [CLOSE_OBJECT] + rest else [COMMA] + EntriesTo(entries[1..], rest)
  }

  /** Spaces are spaces, strings and numbers follow their rules, keys differ, and a number that is
      no int64 is finite. */
  predicate Valid(s: Syntax, strtod: Strtod)
    decreases s, 0
  {
    match s
    case Numeral(n) => JsonNumbers.WellFormed(n) && (IsInt(n) || strtod(JsonNumbers.Text(n)).Some?)
    case Quoted(chars) => ValidChars(chars)
    case List(space, items) => AllSpace(space) && forall i :: 0 <= i < |items| ==> ValidItem(items[i], strtod)
    case Table(space, entries) =>
      && AllSpace(space)
      && (forall i :: 0 <= i < |entries| ==> ValidEntry(entries[i], strtod))
      && (forall i, j :: 0 <= i < j < |entries| ==> CharsBytes(entries[i].key) != CharsBytes(entries[j].key))
    case _ => true
  }

  predicate ValidItem(i: Item, strtod: Strtod)
    decreases i, 1
  {
    AllSpace(i.before) && AllSpace(i.after) && Valid(i.item, strtod)
  }

  predicate ValidEntry(e: Entry, strtod: Strtod)
    decreases e, 1
  {
    && AllSpace(e.before) && AllSpace(e.beforeColon) && AllSpace(e.afterColon) && AllSpace(e.after)
    && ValidChars(e.key) && Valid(e.item, strtod)
  }

  /** An integer that fits 64 bits. */
  predicate IsInt(n: JsonNumbers.Number)
    requires JsonNumbers.WellFormed(n)
  {
    n.fraction.None? && n.exponent.None? && FitsInt64(JsonNumbers.Signed(n))
  }

  function NumberValue(n: JsonNumbers.Number, strtod: Strtod): Value
    requires JsonNumbers.WellFormed(n) && (IsInt(n) || strtod(JsonNumbers.Text(n)).Some?)
  {
    if IsInt(n) then Int(JsonNumbers.Signed(n)) else Double(strtod(JsonNumbers.Text(n)).value)
  }

  function ValueOf(s: Syntax, strtod: Strtod): Value
    requires Valid(s, strtod)
    decreases s, 0
  {
    match s
    case NullWord => Null
    case TrueWord => Bool(true)
    case FalseWord => Bool(false)
    case Numeral(n) => NumberValue(n, strtod)
    case Quoted(chars) => Str(CharsBytes(chars))
    case List(_, items) => Arr(ValuesOf(items, strtod))
    case Table(_, entries) => Obj(Arranged([], MembersOf(entries, strtod)))
  }

  function ValuesOf(items: seq<Item>, strtod: Strtod): (values: seq<Value>)
    requires forall i :: 0 <= i < |items| ==> ValidItem(items[i], strtod)
    ensures |values| == |items|
    decreases items, 1
  {
    seq(|items|, i requires 0 <= i < |items| => assert ValidItem(items[i], strtod); ValueOf(items[i].item, strtod))
  }

  function MembersOf(entries: seq<Entry>, strtod: Strtod): (members: seq<Member>)
    requires forall i :: 0 <= i < |entries| ==> ValidEntry(entries[i], strtod)
    ensures |members| == |entries|
    decreases entries, 1
  {
    seq(|entries|, i requires 0 <= i < |entries| =>
          assert ValidEntry(entries[i], strtod);
          Member(CharsBytes(entries[i].key), ValueOf(entries[i].item, strtod)))
  }

  /** The members put into a map one by one. */
  function Arranged(done: seq<Member>, members: seq<Member>): seq<Member>
    decreases |members|
  {
    if members == [] then done else Arranged(Insert(done, members[0]), members[1..])
  }
}
