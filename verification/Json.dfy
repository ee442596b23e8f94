/** JSON values, their canonical text, and what a text parses to (src/base/Json.cpp,
    RFC 8259 sections 2 to 7), on bytes. The parser's functions consume the front of their
    input and return the rest. */
module Json {
  import opened Machine

  const QUOTE: byte := 0x22
  const BACKSLASH: byte := 0x5c
  const COMMA: byte := 0x2c
  const COLON: byte := 0x3a
  const OPEN_ARRAY: byte := 0x5b
  const CLOSE_ARRAY: byte := 0x5d
  const OPEN_OBJECT: byte := 0x7b
  const CLOSE_OBJECT: byte := 0x7d
  const MINUS: byte := 0x2d
  const PLUS: byte := 0x2b
  const DOT: byte := 0x2e
  const ZERO: byte := 0x30
  const LINE_FEED: byte := 0x0a
  const SPACE: byte := 0x20
  const NULL_TEXT: seq<byte> := [0x6e, 0x75, 0x6c, 0x6c]
  const TRUE_TEXT: seq<byte> := [0x74, 0x72, 0x75, 0x65]
  const FALSE_TEXT: seq<byte> := [0x66, 0x61, 0x6c, 0x73, 0x65]

  datatype Member = Member(key: seq<byte>, value: Value)

  /** A double is known by the 17 significant digits it is shown with, which are not
      interpreted. An object lists the entries of a std::map in key order. */
  datatype Value =
    | Null
    | Bool(flag: bool)
    | Int(number: int64)
    | Double(shown: seq<byte>)
    | Str(text: seq<byte>)
    | Arr(items: seq<Value>)
    | Obj(members: seq<Member>)

  /** The library's reading of a token that is no int64: how the double is shown, if it is
      finite. */
  type Strtod = seq<byte> -> Option<seq<byte>>

  datatype JsonFault =
    | TrailingContent
    | UnexpectedEnd
    | UnexpectedToken
    | InvalidLiteral
    | TruncatedUnicode
    | InvalidUnicode
    | ControlByte
    | TruncatedEscape
    | InvalidEscape
    | MissingLowSurrogate
    | InvalidLowSurrogate
    | OrphanLowSurrogate
    | UnterminatedString
    | ExpectedArrayComma
    | ExpectedKey
    | ExpectedColon
    | DuplicateKey
    | ExpectedObjectComma
    | TruncatedNumber
    | InvalidInteger
    | EmptyFraction
    | EmptyExponent
    | NotFinite

  // ---------------------------------------------------------------------
  // Objects
  // ---------------------------------------------------------------------

  /** std::string's order: unsigned bytes, lexicographically. */
  predicate KeyLess(a: seq<byte>, b: seq<byte>) {
    if b == [] then false
    else if a == [] then true
    else a[0] < b[0] || (a[0] == b[0] && KeyLess(a[1..], b[1..]))
  }

  lemma {:induction false} KeyOrder(a: seq<byte>, b: seq<byte>, c: seq<byte>)
    ensures !(KeyLess(a, b) && KeyLess(b, a))
    ensures KeyLess(a, b) || KeyLess(b, a) || a == b
    ensures KeyLess(a, b) && KeyLess(b, c) ==> KeyLess(a, c)
    decreases |a|
  {
    if a != [] && b != [] {
      KeyOrder(a[1..], b[1..], if c == [] then [] else c[1..]);
      if a[0] == b[0] && a[1..] == b[1..] {
        assert a == [a[0]] + a[1..];
        assert b == [b[0]] + b[1..];
      }
    }
  }

  ghost predicate Sorted(members: seq<Member>) {
    forall i, j :: 0 <= i < j < |members| ==> KeyLess(members[i].key, members[j].key)
  }

  predicate HasKey(members: seq<Member>, key: seq<byte>) {
    exists i :: 0 <= i < |members| && members[i].key == key
  }

  /** std::map::emplace of a key that is not there yet. */
  function Insert(members: seq<Member>, m: Member): seq<Member> {
    if members == [] || KeyLess(m.key, members[0].key) then [m] + members
    else [members[0]] + Insert(members[1..], m)
  }

  lemma {:induction false} InsertHolds(members: seq<Member>, m: Member)
    ensures multiset(Insert(members, m)) == multiset(members) + multiset{m}
  {
    if members == [] || KeyLess(m.key, members[0].key) {
    } else {
      InsertHolds(members[1..], m);
      assert members == [members[0]] + members[1..];
    }
  }

  lemma {:induction false} InsertSorts(members: seq<Member>, m: Member)
    requires Sorted(members) && !HasKey(members, m.key)
    ensures Sorted(Insert(members, m))
    ensures Insert(members, m) != []
    ensures Insert(members, m)[0] == m || (members != [] && Insert(members, m)[0] == members[0])
  {
    if members == [] {
    } else if KeyLess(m.key, members[0].key) {
      forall j | 0 <= j < |members|
        ensures KeyLess(m.key, members[j].key)
      {
        KeyOrder(m.key, members[0].key, members[j].key);
      }
    } else {
      KeyOrder(m.key, members[0].key, []);
      assert forall i :: 0 <= i < |members[1..]| ==> members[1..][i] == members[i + 1];
      InsertSorts(members[1..], m);
      InsertHolds(members[1..], m);
      var others := Insert(members[1..], m);
      forall j | 0 <= j < |others|
        ensures KeyLess(members[0].key, others[j].key)
      {
        assert others[j] in multiset(others);
        if others[j] != m {
          assert others[j] in members[1..];
        }
      }
    }
  }

  /** A key beyond all others goes to the end. */
  lemma {:induction false} InsertLast(members: seq<Member>, m: Member)
    requires forall i :: 0 <= i < |members| ==> KeyLess(members[i].key, m.key)
    ensures Insert(members, m) == members + [m]
    ensures !HasKey(members, m.key)
  {
    if members != [] {
      KeyOrder(members[0].key, m.key, []);
      InsertLast(members[1..], m);
      forall i | 0 <= i < |members|
        ensures members[i].key != m.key
      {
        KeyOrder(members[i].key, m.key, []);
      }
    }
  }

  /** Objects are maps, all the way down. */
  ghost predicate WellFormed(v: Value) {
    match v
    case Arr(items) => forall i :: 0 <= i < |items| ==> WellFormed(items[i])
    case Obj(members) => Sorted(members) && forall i :: 0 <= i < |members| ==> WellFormed(members[i].value)
    case _ => true
  }

  predicate NoDoubles(v: Value) {
    match v
    case Double(_) => false
    case Arr(items) => forall i :: 0 <= i < |items| ==> NoDoubles(items[i])
    case Obj(members) => forall i :: 0 <= i < |members| ==> NoDoubles(members[i].value)
    case _ => true
  }

  // ---------------------------------------------------------------------
  // Canonical text. Each function puts its text in front of what follows.
  // ---------------------------------------------------------------------

  function HexDigit(n: nat): byte
    requires n < 16
  {
    if n < 10 then ZERO + n else 0x61 + n - 10
  }

  function EscapedByte(c: byte): seq<byte> {
    if c == QUOTE then [BACKSLASH, QUOTE]
    else if c == BACKSLASH then [BACKSLASH, BACKSLASH]
    else if c == 0x08 then [BACKSLASH, 0x62]
    else if c == 0x0c then [BACKSLASH, 0x66]
    else if c == 0x0a then [BACKSLASH, 0x6e]
    else if c == 0x0d then [BACKSLASH, 0x72]
    else if c == 0x09 then [BACKSLASH, 0x74]
    else if c < 0x20 then [BACKSLASH, 0x75, ZERO, ZERO, HexDigit(c / 16), HexDigit(c % 16)]
    else [c]
  }

  function EscapedTo(text: seq<byte>, rest: seq<byte>): seq<byte> {
    if text == [] then rest else EscapedByte(text[0]) + EscapedTo(text[1..], rest)
  }

  function StringTo(text: seq<byte>, rest: seq<byte>): seq<byte> {
    [QUOTE] + EscapedTo(text, [QUOTE] + rest)
  }

  function Decimal(n: nat): (digits: seq<byte>)
    ensures digits != []
  {
    if n < 10 then [ZERO + n] else Decimal(n / 10) + [ZERO + n % 10]
  }

  function IntText(i: int64): seq<byte> {
    if i < 0 then [MINUS] + Decimal(0 - i) else Decimal(i)
  }

  function Spaces(n: nat): (spaces: seq<byte>)
    ensures |spaces| == n
  {
    seq(n, _ => SPACE)
  }

  function Break(pretty: bool, depth: nat): seq<byte> {
    if pretty then [LINE_FEED] + Spaces(2 * depth) else []
  }

  function DumpTo(v: Value, pretty: bool, depth: nat, rest: seq<byte>): seq<byte>
    decreases v, 0
  {
    match v
    case Null => NULL_TEXT + rest
    case Bool(flag) => (if flag then TRUE_TEXT else FALSE_TEXT) + rest
    case Int(number) => IntText(number) + rest
    case Double(shown) => shown + rest
    case Str(text) => StringTo(text, rest)
    case Arr(items) =>
      [OPEN_ARRAY] + (if items == [] then [CLOSE_ARRAY] + rest else ItemsTo(items, pretty, depth, rest))
    case Obj(members) =>
      [OPEN_OBJECT] + (if members == [] then [CLOSE_OBJECT] + rest else MembersTo(members, pretty, depth, rest))
  }

  function ItemsTo(items: seq<Value>, pretty: bool, depth: nat, rest: seq<byte>): seq<byte>
    requires items != []
    decreases items
  {
    Break(pretty, depth + 1) + DumpTo(items[0], pretty, depth + 1, AfterItem(items, pretty, depth, rest))
  }

  function AfterItem(items: seq<Value>, pretty: bool, depth: nat, rest: seq<byte>): seq<byte>
    requires items != []
    decreases items, 0
  {
    if |items| == 1 then Break(pretty, depth) + ([CLOSE_ARRAY] + rest)
    else [COMMA] + ItemsTo(items[1..], pretty, depth, rest)
  }

  function Separator(pretty: bool): seq<byte> {
    if pretty then [COLON, SPACE] else [COLON]
  }

  function MembersTo(members: seq<Member>, pretty: bool, depth: nat, rest: seq<byte>): seq<byte>
    requires members != []
    decreases members
  {
    Break(pretty, depth + 1)
      + StringTo(members[0].key,
                 Separator(pretty)
                   + DumpTo(members[0].value, pretty, depth + 1, AfterMember(members, pretty, depth, rest)))
  }

  function AfterMember(members: seq<Member>, pretty: bool, depth: nat, rest: seq<byte>): seq<byte>
    requires members != []
    decreases members, 0
  {
    if |members| == 1 then Break(pretty, depth) + ([CLOSE_OBJECT] + rest)
    else [COMMA] + MembersTo(members[1..], pretty, depth, rest)
  }

  function DumpCanonical(v: Value, pretty: bool): seq<byte> {
    DumpTo(v, pretty, 0, if pretty then [LINE_FEED] else [])
  }

  // ---------------------------------------------------------------------
  // Parsing strings and numbers
  // ---------------------------------------------------------------------

  predicate IsSpace(c: byte) {
    c == SPACE || c == 0x09 || c == 0x0d || c == LINE_FEED
  }

  function Skip(input: seq<byte>): (rest: seq<byte>)
    ensures |rest| <= |input|
    ensures rest != [] ==> !IsSpace(rest[0])
  {
    if input != [] && IsSpace(input[0]) then Skip(input[1..]) else input
  }

  predicate StartsWith(input: seq<byte>, c: byte) {
    input != [] && input[0] == c
  }

  function Hex(c: byte): Option<nat> {
    if ZERO <= c <= 0x39 then Some(c - ZERO)
    else if 0x61 <= c <= 0x66 then Some(c - 0x61 + 10)
    else if 0x41 <= c <= 0x46 then Some(c - 0x41 + 10)
    else None
  }

  function ParseHex4(input: seq<byte>): (r: Result<(nat, seq<byte>), JsonFault>)
    ensures r.Ok? ==> r.value.0 < 0x1_0000 && |r.value.1| < |input|
  {
    if |input| < 4 then Err(TruncatedUnicode)
    else
      var a, b, c, d := Hex(input[0]), Hex(input[1]), Hex(input[2]), Hex(input[3]);
      if a.None? || b.None? || c.None? || d.None? then Err(InvalidUnicode)
      else
        Ok((a.value * 0x1000 + b.value * 0x100 + c.value * 0x10 + d.value, input[4..]))
  }

  predicate Scalar(codepoint: nat) {
    codepoint <= 0x10_ffff && !(0xd800 <= codepoint <= 0xdfff)
  }

  function Utf8(codepoint: nat): seq<byte>
    requires Scalar(codepoint)
  {
    if codepoint <= 0x7f then [codepoint]
    else if codepoint <= 0x7ff then [0xc0 + codepoint / 0x40, 0x80 + codepoint % 0x40]
    else if codepoint <= 0xffff then
      [0xe0 + codepoint / 0x1000, 0x80 + codepoint / 0x40 % 0x40, 0x80 + codepoint % 0x40]
    else
      [0xf0 + codepoint / 0x4_0000, 0x80 + codepoint / 0x1000 % 0x40, 0x80 + codepoint / 0x40 % 0x40,
       0x80 + codepoint % 0x40]
  }

  /** What follows "\u". The source's check for non-scalar code points never fires. */
  function ParseUnicode(input: seq<byte>): (r: Result<(seq<byte>, seq<byte>), JsonFault>)
    ensures r.Ok? ==> |r.value.1| < |input|
  {
    var first :- ParseHex4(input);
    if 0xd800 <= first.0 <= 0xdbff then
      var rest := first.1;
      if |rest| < 2 || rest[0] != BACKSLASH || rest[1] != 0x75 then Err(MissingLowSurrogate)
      else
        var low :- ParseHex4(rest[2..]);
        if low.0 < 0xdc00 || low.0 > 0xdfff then Err(InvalidLowSurrogate)
        else Ok((Utf8(0x1_0000 + (first.0 - 0xd800) * 0x400 + (low.0 - 0xdc00)), low.1))
    else if 0xdc00 <= first.0 <= 0xdfff then Err(OrphanLowSurrogate)
    else Ok((Utf8(first.0), first.1))
  }

  /** What follows a backslash. */
  function ParseEscape(input: seq<byte>): (r: Result<(seq<byte>, seq<byte>), JsonFault>)
    ensures r.Ok? ==> |r.value.1| < |input|
  {
    if input == [] then Err(TruncatedEscape)
    else
      var c, rest := input[0], input[1..];
      if c == QUOTE || c == BACKSLASH || c == 0x2f then Ok(([c], rest))
      else if c == 0x62 then Ok(([0x08], rest))
      else if c == 0x66 then Ok(([0x0c], rest))
      else if c == 0x6e then Ok(([0x0a], rest))
      else if c == 0x72 then Ok(([0x0d], rest))
      else if c == 0x74 then Ok(([0x09], rest))
      else if c == 0x75 then ParseUnicode(rest)
      else Err(InvalidEscape)
  }

  /** What follows an opening quote. */
  function ParseChars(input: seq<byte>): (r: Result<(seq<byte>, seq<byte>), JsonFault>)
    ensures r.Ok? ==> |r.value.1| < |input|
    decreases |input|
  {
    if input == [] then Err(UnterminatedString)
    else if input[0] == QUOTE then Ok(([], input[1..]))
    else if input[0] < 0x20 then Err(ControlByte)
    else if input[0] != BACKSLASH then
      var others :- ParseChars(input[1..]);
      Ok(([input[0]] + others.0, others.1))
    else
      var escaped :- ParseEscape(input[1..]);
      var others :- ParseChars(escaped.1);
      Ok((escaped.0 + others.0, others.1))
  }

  predicate IsDigit(c: byte) {
    ZERO <= c <= 0x39
  }

  /** How many digits there are at the front. */
  function DigitRun(input: seq<byte>): (n: nat)
    ensures n <= |input|
    ensures n < |input| ==> !IsDigit(input[n])
    ensures forall i :: 0 <= i < n ==> IsDigit(input[i])
  {
    if input != [] && IsDigit(input[0]) then 1 + DigitRun(input[1..]) else 0
  }

  function DigitsValue(digits: seq<byte>): nat
    requires forall i :: 0 <= i < |digits| ==> IsDigit(digits[i])
  {
    if digits == [] then 0
    else
      var last := digits[|digits| - 1];
      assert IsDigit(last);
      10 * DigitsValue(digits[..|digits| - 1]) + (last - ZERO)
  }

  /** The length of the integer part after an optional minus. */
  function IntegerRun(input: seq<byte>): (r: Result<nat, JsonFault>)
    ensures r.Ok? ==> 0 < r.value <= |input| && forall i :: 0 <= i < r.value ==> IsDigit(input[i])
  {
    if input == [] then Err(TruncatedNumber)
    else if input[0] == ZERO then Ok(1)
    else if !IsDigit(input[0]) then Err(InvalidInteger)
    else Ok(DigitRun(input))
  }

  /** The length of the fraction and exponent, if there are any. */
  function FractionRun(input: seq<byte>): (r: Result<nat, JsonFault>)
    ensures r.Ok? ==> r.value <= |input|
  {
    if !StartsWith(input, DOT) then Ok(0)
    else if DigitRun(input[1..]) == 0 then Err(EmptyFraction)
    else Ok(1 + DigitRun(input[1..]))
  }

  function ExponentRun(input: seq<byte>): (r: Result<nat, JsonFault>)
    ensures r.Ok? ==> r.value <= |input|
  {
    if !StartsWith(input, 0x65) && !StartsWith(input, 0x45) then Ok(0)
    else
      var sign := if StartsWith(input[1..], PLUS) || StartsWith(input[1..], MINUS) then 1 else 0;
      var digits := DigitRun(input[1 + sign..]);
      if digits == 0 then Err(EmptyExponent) else Ok(1 + sign + digits)
  }

  /** The value of a whole token. */
  function NumberOf(token: seq<byte>, digits: seq<byte>, negative: bool, integer: bool, strtod: Strtod)
    : (r: Result<Value, JsonFault>)
    requires forall i :: 0 <= i < |digits| ==> IsDigit(digits[i])
    ensures r.Ok? ==> r.value.Int? || r.value.Double?
  {
    var number := if negative then 0 - DigitsValue(digits) else DigitsValue(digits);
    if integer && FitsInt64(number) then Ok(Int(number))
    else
      match strtod(token)
      case None => Err(NotFinite)
      case Some(shown) => Ok(Double(shown))
  }

  /** The lengths of the parts of an unsigned number. */
  datatype Shape = Shape(whole: nat, fraction: nat, exponent: nat) {
    function Length(): nat {
      whole + fraction + exponent
    }
  }

  function ShapeOf(input: seq<byte>): (r: Result<Shape, JsonFault>)
    ensures r.Ok? ==> 0 < r.value.whole && r.value.Length() <= |input|
    ensures r.Ok? ==> forall i :: 0 <= i < r.value.whole ==> IsDigit(input[i])
  {
    var whole :- IntegerRun(input);
    var fraction :- FractionRun(input[whole..]);
    var exponent :- ExponentRun(input[whole..][fraction..]);
    Ok(Shape(whole, fraction, exponent))
  }

  /** The number whose parts have been measured. */
  function NumberFrom(input: seq<byte>, sign: nat, shape: Shape, strtod: Strtod)
    : (r: Result<(Value, seq<byte>), JsonFault>)
    requires sign + shape.Length() <= |input| && shape.whole > 0
    requires forall i :: 0 <= i < shape.whole ==> IsDigit(input[sign..][i])
    ensures r.Ok? ==> |r.value.1| < |input| && (r.value.0.Int? || r.value.0.Double?)
  {
    var end := sign + shape.Length();
    var number :- NumberOf(input[..end], input[sign..][..shape.whole], sign == 1,
                           shape.fraction == 0 && shape.exponent == 0, strtod);
    Ok((number, input[end..]))
  }

  function ParseNumber(input: seq<byte>, strtod: Strtod): (r: Result<(Value, seq<byte>), JsonFault>)
    ensures r.Ok? ==> |r.value.1| < |input| && (r.value.0.Int? || r.value.0.Double?)
  {
    var sign := if StartsWith(input, MINUS) then 1 else 0;
    var shape :- ShapeOf(input[sign..]);
    NumberFrom(input, sign, shape, strtod)
  }

  function ParseLiteral(input: seq<byte>, text: seq<byte>, v: Value): (r: Result<(Value, seq<byte>), JsonFault>)
    requires text != []
    ensures r.Ok? ==> |r.value.1| < |input| && r.value.0 == v
  {
    if text <= input then Ok((v, input[|text|..])) else Err(InvalidLiteral)
  }

  // ---------------------------------------------------------------------
  // Parsing values
  // ---------------------------------------------------------------------

  function ParseValue(input: seq<byte>, strtod: Strtod): (r: Result<(Value, seq<byte>), JsonFault>)
    ensures r.Ok? ==> |r.value.1| < |input|
    decreases |input|, 0
  {
    if input == [] then Err(UnexpectedEnd)
    else if input[0] == NULL_TEXT[0] then ParseLiteral(input, NULL_TEXT, Null)
    else if input[0] == TRUE_TEXT[0] then ParseLiteral(input, TRUE_TEXT, Bool(true))
    else if input[0] == FALSE_TEXT[0] then ParseLiteral(input, FALSE_TEXT, Bool(false))
    else if input[0] == QUOTE then
      var text :- ParseChars(input[1..]);
      Ok((Str(text.0), text.1))
    else if input[0] == OPEN_ARRAY then
      var body := Skip(input[1..]);
      if StartsWith(body, CLOSE_ARRAY) then Ok((Arr([]), body[1..]))
      else
        var items :- ParseItems(body, strtod);
        Ok((Arr(items.0), items.1))
    else if input[0] == OPEN_OBJECT then
      var body := Skip(input[1..]);
      if StartsWith(body, CLOSE_OBJECT) then Ok((Obj([]), body[1..]))
      else
        var members :- ParseMembers(body, [], strtod);
        Ok((Obj(members.0), members.1))
    else if input[0] == MINUS || IsDigit(input[0]) then ParseNumber(input, strtod)
    else Err(UnexpectedToken)
  }

  /** The items of an array, up to and including the closing bracket. */
  function ParseItems(input: seq<byte>, strtod: Strtod): (r: Result<(seq<Value>, seq<byte>), JsonFault>)
    ensures r.Ok? ==> |r.value.1| < |input|
    decreases |input|, 1
  {
    var item :- ParseValue(Skip(input), strtod);
    var after := Skip(item.1);
    if StartsWith(after, CLOSE_ARRAY) then Ok(([item.0], after[1..]))
    else if !StartsWith(after, COMMA) then Err(ExpectedArrayComma)
    else
      var others :- ParseItems(after[1..], strtod);
      Ok(([item.0] + others.0, others.1))
  }

  /** A key, a colon and a value. */
  function ParseMember(input: seq<byte>, strtod: Strtod): (r: Result<(Member, seq<byte>), JsonFault>)
    ensures r.Ok? ==> |r.value.1| < |input|
    decreases |input|, 1
  {
    var start := Skip(input);
    if !StartsWith(start, QUOTE) then Err(ExpectedKey)
    else
      var key :- ParseChars(start[1..]);
      var colon := Skip(key.1);
      if !StartsWith(colon, COLON) then Err(ExpectedColon)
      else
        var item :- ParseValue(Skip(colon[1..]), strtod);
        Ok((Member(key.0, item.0), item.1))
  }

  /** The members of an object, added to those there are, up to and including the brace. */
  function ParseMembers(input: seq<byte>, members: seq<Member>, strtod: Strtod)
    : (r: Result<(seq<Member>, seq<byte>), JsonFault>)
    ensures r.Ok? ==> |r.value.1| < |input|
    decreases |input|, 2
  {
    var m :- ParseMember(input, strtod);
    if HasKey(members, m.0.key) then Err(DuplicateKey)
    else
      var grown := Insert(members, m.0);
      var after := Skip(m.1);
      if StartsWith(after, CLOSE_OBJECT) then Ok((grown, after[1..]))
      else if !StartsWith(after, COMMA) then Err(ExpectedObjectComma)
      else ParseMembers(after[1..], grown, strtod)
  }

  function Parse(text: seq<byte>, strtod: Strtod): Result<Value, JsonFault> {
    var root :- ParseValue(Skip(text), strtod);
    if Skip(root.1) != [] then Err(TrailingContent) else Ok(root.0)
  }
}
