/** Parsing canonical JSON text gives back the value it was written from. */
module JsonRoundTrip {
  import opened Machine
  import opened Json

  // ---------------------------------------------------------------------
  // Strings
  // ---------------------------------------------------------------------

  lemma HexRoundTrip(n: nat)
    requires n < 16
    ensures Hex(HexDigit(n)) == Some(n)
  {
  }

  lemma EscapedReadsBack(c: byte, rest: seq<byte>)
    requires c == QUOTE || c == BACKSLASH || c < 0x20
    ensures var text := EscapedByte(c) + rest;
            text[0] == BACKSLASH && ParseEscape(text[1..]) == Ok(([c], rest))
  {
    var text := EscapedByte(c) + rest;
    if |EscapedByte(c)| == 2 {
      assert text[1..][1..] == rest;
    } else {
      HexRoundTrip(c / 16);
      HexRoundTrip(c % 16);
      assert text[1..][1..] == [ZERO, ZERO, HexDigit(c / 16), HexDigit(c % 16)] + rest;
      assert text[1..][1..][4..] == rest;
    }
  }

  lemma {:induction false} CharsReadBack(text: seq<byte>, rest: seq<byte>)
    ensures ParseChars(EscapedTo(text, [QUOTE] + rest)) == Ok((text, rest))
  {
    if text == [] {
      assert ([QUOTE] + rest)[1..] == rest;
    } else {
      var c := text[0];
      var others := EscapedTo(text[1..], [QUOTE] + rest);
      CharsReadBack(text[1..], rest);
      assert text == [c] + text[1..];
      if c == QUOTE || c == BACKSLASH || c < 0x20 {
        hide ParseEscape, EscapedByte;
        EscapedReadsBack(c, others);
      } else {
        assert ([c] + others)[1..] == others;
      }
    }
  }

  // ---------------------------------------------------------------------
  // Numbers
  // ---------------------------------------------------------------------

  lemma {:induction false} DecimalReadsBack(n: nat)
    ensures var digits := Decimal(n);
            && (forall i :: 0 <= i < |digits| ==> IsDigit(digits[i]))
            && DigitsValue(digits) == n
            && (digits[0] == ZERO ==> digits == [ZERO])
  {
    var digits := Decimal(n);
    if n >= 10 {
      DecimalReadsBack(n / 10);
      assert digits[..|digits| - 1] == Decimal(n / 10);
    } else {
      assert digits[..0] == [];
    }
  }

  lemma {:induction false} RunOfDigits(digits: seq<byte>, rest: seq<byte>)
    requires forall i :: 0 <= i < |digits| ==> IsDigit(digits[i])
    requires rest != [] ==> !IsDigit(rest[0])
    ensures DigitRun(digits + rest) == |digits|
  {
    if digits == [] {
      assert digits + rest == rest;
    } else {
      assert (digits + rest)[1..] == digits[1..] + rest;
      RunOfDigits(digits[1..], rest);
    }
  }

  /** What may follow a number without becoming part of it. */
  predicate Delimited(rest: seq<byte>) {
    rest != [] ==> !IsDigit(rest[0]) && rest[0] != DOT && rest[0] != 0x65 && rest[0] != 0x45
  }

  lemma DecimalShape(n: nat, rest: seq<byte>)
    requires Delimited(rest)
    ensures ShapeOf(Decimal(n) + rest) == Ok(Shape(|Decimal(n)|, 0, 0))
    ensures IsDigit((Decimal(n) + rest)[0])
    ensures NumberIs(Decimal(n), n)
  {
    hide Decimal;
    var digits := Decimal(n);
    DecimalReadsBack(n);
    assert IsDigit(digits[0]);
    RunOfDigits(digits, rest);
    assert IntegerRun(digits + rest) == Ok(|digits|);
    assert (digits + rest)[|digits|..] == rest && rest[0..] == rest;
  }

  predicate NumberIs(digits: seq<byte>, n: nat) {
    (forall i :: 0 <= i < |digits| ==> IsDigit(digits[i])) && DigitsValue(digits) == n
  }

  lemma NumberReadsBack(i: int64, rest: seq<byte>, strtod: Strtod)
    requires Delimited(rest)
    ensures ParseNumber(IntText(i) + rest, strtod) == Ok((Int(i), rest))
  {
    hide Decimal, ShapeOf, Delimited;
    var magnitude := if i < 0 then 0 - i else i;
    var digits := Decimal(magnitude);
    var input := IntText(i) + rest;
    var sign := if i < 0 then 1 else 0;
    DecimalShape(magnitude, rest);
    assert input[sign..] == digits + rest;
    assert (digits + rest)[..|digits|] == digits;
    assert input[sign + |digits|..] == rest;
    assert input[sign..][0] == input[sign];
  }

  // ---------------------------------------------------------------------
  // White space
  // ---------------------------------------------------------------------

  lemma {:induction false} SkipSpaces(n: nat, rest: seq<byte>)
    ensures Skip(Spaces(n) + rest) == Skip(rest)
  {
    if n == 0 {
      assert Spaces(0) + rest == rest;
    } else {
      assert (Spaces(n) + rest)[1..] == Spaces(n - 1) + rest;
      SkipSpaces(n - 1, rest);
    }
  }

  lemma SkipBreak(pretty: bool, depth: nat, rest: seq<byte>)
    ensures Skip(Break(pretty, depth) + rest) == Skip(rest)
  {
    if pretty {
      assert (Break(pretty, depth) + rest)[1..] == Spaces(2 * depth) + rest;
      SkipSpaces(2 * depth, rest);
    } else {
      assert [] + rest == rest;
    }
  }

  lemma SkipNothing(rest: seq<byte>)
    requires rest != [] && !IsSpace(rest[0])
    ensures Skip(rest) == rest
  {
  }

  /** No value's text starts with white space or with what ends a list. */
  lemma StartsPlain(v: Value, pretty: bool, depth: nat, rest: seq<byte>)
    requires NoDoubles(v)
    ensures var text := DumpTo(v, pretty, depth, rest);
            && text != [] && !IsSpace(text[0])
            && text[0] != CLOSE_ARRAY && text[0] != CLOSE_OBJECT
    ensures Skip(DumpTo(v, pretty, depth, rest)) == DumpTo(v, pretty, depth, rest)
  {
    if v.Int? {
      DecimalReadsBack(if v.number < 0 then 0 - v.number else v.number);
      assert IsDigit(Decimal(if v.number < 0 then 0 - v.number else v.number)[0]);
    }
    assert DumpTo(v, pretty, depth, rest) != [];
  }

  lemma BreakDelimits(pretty: bool, depth: nat, c: byte, rest: seq<byte>)
    requires c == CLOSE_ARRAY || c == CLOSE_OBJECT
    ensures Delimited(Break(pretty, depth) + ([c] + rest))
    ensures Skip(Break(pretty, depth) + ([c] + rest)) == [c] + rest
    ensures ([c] + rest)[1..] == rest
  {
    SkipBreak(pretty, depth, [c] + rest);
    SkipNothing([c] + rest);
  }

  lemma CommaDelimits(rest: seq<byte>)
    ensures Delimited([COMMA] + rest) && Skip([COMMA] + rest) == [COMMA] + rest
    ensures ([COMMA] + rest)[1..] == rest && !StartsWith([COMMA] + rest, CLOSE_ARRAY)
    ensures StartsWith([COMMA] + rest, COMMA) && !StartsWith([COMMA] + rest, CLOSE_OBJECT)
  {
    SkipNothing([COMMA] + rest);
  }

  // ---------------------------------------------------------------------
  // Values
  // ---------------------------------------------------------------------

  lemma LiteralReadsBack(text: seq<byte>, v: Value, rest: seq<byte>)
    requires text != []
    ensures ParseLiteral(text + rest, text, v) == Ok((v, rest))
  {
    assert (text + rest)[|text|..] == rest;
  }

  lemma {:induction false} ValueReadsBack(v: Value, pretty: bool, depth: nat, rest: seq<byte>, strtod: Strtod)
    requires WellFormed(v) && NoDoubles(v) && Delimited(rest)
    ensures ParseValue(DumpTo(v, pretty, depth, rest), strtod) == Ok((v, rest))
    decreases v, 0
  {
    hide ParseLiteral, ParseNumber, ParseChars, ParseItems, ParseMembers, Skip, EscapedTo, Delimited;
    hide IntText;
    var input := DumpTo(v, pretty, depth, rest);
    match v {
      case Null =>
        LiteralReadsBack(NULL_TEXT, Null, rest);
      case Bool(flag) =>
        LiteralReadsBack(if flag then TRUE_TEXT else FALSE_TEXT, v, rest);
      case Int(number) =>
        NumberReadsBack(number, rest, strtod);
        IntStarts(number, rest);
      case Str(text) =>
        CharsReadBack(text, rest);
        assert input[1..] == EscapedTo(text, [QUOTE] + rest);
      case Arr(items) =>
        ArrayReadsBack(items, pretty, depth, rest, strtod);
      case Obj(members) =>
        ObjectReadsBack(members, pretty, depth, rest, strtod);
    }
  }

  lemma IntStarts(i: int64, rest: seq<byte>)
    ensures var text := IntText(i) + rest;
            text != [] && (text[0] == MINUS || IsDigit(text[0]))
  {
    DecimalReadsBack(if i < 0 then 0 - i else i);
  }

  lemma {:induction false} ArrayReadsBack(items: seq<Value>, pretty: bool, depth: nat, rest: seq<byte>, strtod: Strtod)
    requires WellFormed(Arr(items)) && NoDoubles(Arr(items))
    ensures ParseValue(DumpTo(Arr(items), pretty, depth, rest), strtod) == Ok((Arr(items), rest))
    decreases items, 3
  {
    hide ParseItems, ItemsTo, WellFormed, NoDoubles;
    var input := DumpTo(Arr(items), pretty, depth, rest);
    if items == [] {
      assert input[1..] == [CLOSE_ARRAY] + rest;
      SkipNothing(input[1..]);
      assert input[1..][1..] == rest;
    } else {
      assert input[1..] == ItemsTo(items, pretty, depth, rest);
      ItemsStart(items, pretty, depth, rest);
      ItemsReadBack(items, pretty, depth, rest, strtod);
    }
  }

  /** After white space, a list of items starts with its first item. */
  lemma ItemsStart(items: seq<Value>, pretty: bool, depth: nat, rest: seq<byte>)
    requires items != [] && NoDoubles(Arr(items))
    ensures var first := DumpTo(items[0], pretty, depth + 1, AfterItem(items, pretty, depth, rest));
            && Skip(ItemsTo(items, pretty, depth, rest)) == first
            && Skip(first) == first
            && !StartsWith(first, CLOSE_ARRAY)
  {
    hide DumpTo, AfterItem, Break, Skip;
    var after := AfterItem(items, pretty, depth, rest);
    assert NoDoubles(items[0]);
    SkipBreak(pretty, depth + 1, DumpTo(items[0], pretty, depth + 1, after));
    StartsPlain(items[0], pretty, depth + 1, after);
  }

  lemma {:induction false} ItemsReadBack(items: seq<Value>, pretty: bool, depth: nat, rest: seq<byte>, strtod: Strtod)
    requires items != [] && WellFormed(Arr(items)) && NoDoubles(Arr(items))
    ensures ParseItems(Skip(ItemsTo(items, pretty, depth, rest)), strtod) == Ok((items, rest))
    decreases items, 2
  {
    hide DumpTo, ItemsTo, Break, Skip, ParseValue, Delimited;
    var after := AfterItem(items, pretty, depth, rest);
    ItemsStart(items, pretty, depth, rest);
    assert WellFormed(items[0]) && NoDoubles(items[0]);
    if |items| == 1 {
      BreakDelimits(pretty, depth, CLOSE_ARRAY, rest);
      ValueReadsBack(items[0], pretty, depth + 1, after, strtod);
      assert items == [items[0]];
    } else {
      var others := ItemsTo(items[1..], pretty, depth, rest);
      CommaDelimits(others);
      ValueReadsBack(items[0], pretty, depth + 1, after, strtod);
      forall i | 0 <= i < |items[1..]|
        ensures WellFormed(items[1..][i]) && NoDoubles(items[1..][i])
      {
        assert items[1..][i] == items[i + 1];
      }
      ItemsReadBack(items[1..], pretty, depth, rest, strtod);
      ItemsStart(items[1..], pretty, depth, rest);
      ParseItemsSkips(others, strtod);
      assert items == [items[0]] + items[1..];
    }
  }

  lemma SkipTwice(input: seq<byte>)
    ensures Skip(Skip(input)) == Skip(input)
  {
  }

  lemma ParseItemsSkips(input: seq<byte>, strtod: Strtod)
    ensures ParseItems(Skip(input), strtod) == ParseItems(input, strtod)
  {
    hide ParseValue;
    SkipTwice(input);
  }

  lemma {:induction false} ObjectReadsBack(members: seq<Member>, pretty: bool, depth: nat, rest: seq<byte>,
                                           strtod: Strtod)
    requires WellFormed(Obj(members)) && NoDoubles(Obj(members))
    ensures ParseValue(DumpTo(Obj(members), pretty, depth, rest), strtod) == Ok((Obj(members), rest))
    decreases members, 3
  {
    hide ParseMembers, MembersTo;
    var input := DumpTo(Obj(members), pretty, depth, rest);
    if members == [] {
      assert input[1..] == [CLOSE_OBJECT] + rest;
      SkipNothing(input[1..]);
      assert input[1..][1..] == rest;
    } else {
      assert input[1..] == MembersTo(members, pretty, depth, rest);
      MembersStart(members, pretty, depth, rest);
      assert [] + members == members;
      MembersReadBack([], members, pretty, depth, rest, strtod);
    }
  }

  lemma MembersStart(members: seq<Member>, pretty: bool, depth: nat, rest: seq<byte>)
    requires members != []
    ensures var first := StringTo(members[0].key,
                           Separator(pretty)
                             + DumpTo(members[0].value, pretty, depth + 1, AfterMember(members, pretty, depth, rest)));
            && Skip(MembersTo(members, pretty, depth, rest)) == first
            && StartsWith(first, QUOTE) && !StartsWith(first, CLOSE_OBJECT)
  {
    hide DumpTo, AfterMember, Break, Skip, EscapedTo;
    var first := StringTo(members[0].key,
                   Separator(pretty)
                     + DumpTo(members[0].value, pretty, depth + 1, AfterMember(members, pretty, depth, rest)));
    SkipBreak(pretty, depth + 1, first);
    SkipNothing(first);
  }

  lemma SeparatorSkipped(pretty: bool, rest: seq<byte>)
    requires rest != [] && !IsSpace(rest[0])
    ensures Skip(Separator(pretty) + rest) == Separator(pretty) + rest
    ensures StartsWith(Separator(pretty) + rest, COLON)
    ensures Skip((Separator(pretty) + rest)[1..]) == rest
  {
    var text := Separator(pretty) + rest;
    SkipNothing(text);
    SkipNothing(rest);
    if pretty {
      assert text[1..] == [SPACE] + rest;
      assert text[1..][1..] == rest;
    } else {
      assert text[1..] == rest;
    }
  }

  lemma {:induction false} MemberReadsBack(members: seq<Member>, pretty: bool, depth: nat, rest: seq<byte>,
                                           strtod: Strtod)
    requires members != [] && WellFormed(members[0].value) && NoDoubles(members[0].value)
    requires Delimited(AfterMember(members, pretty, depth, rest))
    ensures ParseMember(Skip(MembersTo(members, pretty, depth, rest)), strtod)
         == Ok((members[0], AfterMember(members, pretty, depth, rest)))
    decreases members, 1
  {
    hide DumpTo, AfterMember, MembersTo, Skip, ParseChars, ParseValue, Delimited, EscapedTo, Separator, WellFormed,
         NoDoubles;
    var m := members[0];
    var after := AfterMember(members, pretty, depth, rest);
    var text := DumpTo(m.value, pretty, depth + 1, after);
    MembersStart(members, pretty, depth, rest);
    SkipTwice(MembersTo(members, pretty, depth, rest));
    CharsReadBack(m.key, Separator(pretty) + text);
    var first := StringTo(m.key, Separator(pretty) + text);
    assert first[1..] == EscapedTo(m.key, [QUOTE] + (Separator(pretty) + text));
    StartsPlain(m.value, pretty, depth + 1, after);
    SeparatorSkipped(pretty, text);
    ValueReadsBack(m.value, pretty, depth + 1, after, strtod);
  }

  lemma SplitSorted(done: seq<Member>, members: seq<Member>)
    requires members != [] && Sorted(done + members)
    ensures forall i :: 0 <= i < |done| ==> KeyLess(done[i].key, members[0].key)
    ensures done + members == (done + [members[0]]) + members[1..]
  {
    assert (done + members)[|done|] == members[0];
    forall i | 0 <= i < |done|
      ensures KeyLess(done[i].key, members[0].key)
    {
      assert (done + members)[i] == done[i];
    }
  }

  lemma {:induction false} MembersReadBack(done: seq<Member>, members: seq<Member>, pretty: bool, depth: nat,
                                           rest: seq<byte>, strtod: Strtod)
    requires members != [] && Sorted(done + members)
    requires forall i :: 0 <= i < |members| ==> WellFormed(members[i].value) && NoDoubles(members[i].value)
    ensures ParseMembers(Skip(MembersTo(members, pretty, depth, rest)), done, strtod) == Ok((done + members, rest))
    decreases members, 2
  {
    hide DumpTo, MembersTo, Break, Skip, ParseMember, Delimited, WellFormed, NoDoubles, Sorted, KeyLess, Insert, HasKey;
    SplitSorted(done, members);
    InsertLast(done, members[0]);
    if |members| == 1 {
      BreakDelimits(pretty, depth, CLOSE_OBJECT, rest);
      MemberReadsBack(members, pretty, depth, rest, strtod);
      assert members == [members[0]];
    } else {
      var others := MembersTo(members[1..], pretty, depth, rest);
      CommaDelimits(others);
      MemberReadsBack(members, pretty, depth, rest, strtod);
      MembersReadBack(done + [members[0]], members[1..], pretty, depth, rest, strtod);
      ParseMembersSkips(others, done + [members[0]], strtod);
    }
  }

  lemma ParseMembersSkips(input: seq<byte>, members: seq<Member>, strtod: Strtod)
    ensures ParseMembers(Skip(input), members, strtod) == ParseMembers(input, members, strtod)
  {
    hide ParseValue, ParseChars, ParseMembers;
    assert ParseMember(Skip(input), strtod) == ParseMember(input, strtod) by { SkipTwice(input); }
    MembersAfterSkip(input, members, strtod);
  }

  lemma MembersAfterSkip(input: seq<byte>, members: seq<Member>, strtod: Strtod)
    requires ParseMember(Skip(input), strtod) == ParseMember(input, strtod)
    ensures ParseMembers(Skip(input), members, strtod) == ParseMembers(input, members, strtod)
  {
    hide ParseMember, Skip;
  }

  /** Every value without doubles is read back from its canonical text, indented or not. */
  lemma DumpReadsBack(v: Value, pretty: bool, strtod: Strtod)
    requires WellFormed(v) && NoDoubles(v)
    ensures Parse(DumpCanonical(v, pretty), strtod) == Ok(v)
  {
    hide DumpTo, ParseValue, WellFormed, NoDoubles;
    var end: seq<byte> := if pretty then [LINE_FEED] else [];
    StartsPlain(v, pretty, 0, end);
    ValueReadsBack(v, pretty, 0, end, strtod);
    assert pretty ==> end[1..] == [];
  }

  /** Different values have different canonical texts. */
  lemma TextDetermines(v: Value, w: Value, pretty: bool)
    requires WellFormed(v) && NoDoubles(v) && WellFormed(w) && NoDoubles(w)
    requires DumpCanonical(v, pretty) == DumpCanonical(w, pretty)
    ensures v == w
  {
    hide *;
    var noDoubles: Strtod := _ => None;
    DumpReadsBack(v, pretty, noDoubles);
    DumpReadsBack(w, pretty, noDoubles);
  }

  // ---------------------------------------------------------------------
  // What is parsed
  // ---------------------------------------------------------------------

  lemma {:induction false} ParsedValueWellFormed(input: seq<byte>, strtod: Strtod)
    ensures ParseValue(input, strtod).Ok? ==> WellFormed(ParseValue(input, strtod).value.0)
    decreases |input|, 0
  {
    hide ParseItems, ParseMembers, ParseChars, ParseNumber, ParseLiteral, Skip;
    if input != [] && input[0] == OPEN_ARRAY {
      ParsedItemsWellFormed(Skip(input[1..]), strtod);
    } else if input != [] && input[0] == OPEN_OBJECT {
      ParsedMembersWellFormed(Skip(input[1..]), [], strtod);
    }
  }

  lemma {:induction false} ParsedItemsWellFormed(input: seq<byte>, strtod: Strtod)
    ensures ParseItems(input, strtod).Ok? ==> WellFormed(Arr(ParseItems(input, strtod).value.0))
    decreases |input|, 1
  {
    hide ParseValue, Skip;
    ParsedValueWellFormed(Skip(input), strtod);
    if ParseItems(input, strtod).Ok? {
      var after := Skip(ParseValue(Skip(input), strtod).value.1);
      if !StartsWith(after, CLOSE_ARRAY) {
        ParsedItemsWellFormed(after[1..], strtod);
      }
    }
  }

  ghost predicate MembersWellFormed(members: seq<Member>) {
    Sorted(members) && forall i :: 0 <= i < |members| ==> WellFormed(members[i].value)
  }

  lemma InsertWellFormed(members: seq<Member>, m: Member)
    requires MembersWellFormed(members) && !HasKey(members, m.key) && WellFormed(m.value)
    ensures MembersWellFormed(Insert(members, m))
  {
    hide Insert, KeyLess, WellFormed;
    InsertSorts(members, m);
    InsertHolds(members, m);
    var grown := Insert(members, m);
    forall i | 0 <= i < |grown|
      ensures WellFormed(grown[i].value)
    {
      assert grown[i] in multiset(grown);
      if grown[i] != m {
        assert grown[i] in members;
      }
    }
  }

  lemma {:induction false} ParsedMembersWellFormed(input: seq<byte>, members: seq<Member>, strtod: Strtod)
    requires MembersWellFormed(members)
    ensures ParseMembers(input, members, strtod).Ok? ==> WellFormed(Obj(ParseMembers(input, members, strtod).value.0))
    decreases |input|, 2
  {
    hide ParseValue, Skip, ParseChars, Insert, HasKey, Sorted;
    var m := ParseMember(input, strtod);
    if ParseMembers(input, members, strtod).Ok? {
      var start := Skip(input);
      var colon := Skip(ParseChars(start[1..]).value.1);
      ParsedValueWellFormed(Skip(colon[1..]), strtod);
      InsertWellFormed(members, m.value.0);
      var after := Skip(m.value.1);
      if !StartsWith(after, CLOSE_OBJECT) {
        ParsedMembersWellFormed(after[1..], Insert(members, m.value.0), strtod);
      }
    }
  }

  /** Whatever a text parses to is written and read back as itself, if it has no doubles. */
  lemma ParsedReadsBack(text: seq<byte>, pretty: bool, strtod: Strtod)
    requires Parse(text, strtod).Ok? && NoDoubles(Parse(text, strtod).value)
    ensures WellFormed(Parse(text, strtod).value)
    ensures Parse(DumpCanonical(Parse(text, strtod).value, pretty), strtod) == Parse(text, strtod)
  {
    hide ParseValue, Skip, DumpCanonical, WellFormed, NoDoubles;
    ParsedValueWellFormed(Skip(text), strtod);
    DumpReadsBack(Parse(text, strtod).value, pretty, strtod);
  }

  // ---------------------------------------------------------------------
  // Unicode escapes
  // ---------------------------------------------------------------------

  function Hex4(n: nat): seq<byte>
    requires n < 0x1_0000
  {
    [HexDigit(n / 0x1000), HexDigit(n / 0x100 % 0x10), HexDigit(n / 0x10 % 0x10), HexDigit(n % 0x10)]
  }

  /** RFC 8259, section 7: how a code point is escaped, after its first "\u". */
  function EscapedCodepoint(codepoint: nat): seq<byte>
    requires Scalar(codepoint)
  {
    if codepoint < 0x1_0000 then Hex4(codepoint)
    else
      Hex4(0xd800 + (codepoint - 0x1_0000) / 0x400) + [BACKSLASH, 0x75] + Hex4(0xdc00 + (codepoint - 0x1_0000) % 0x400)
  }

  lemma Nibbles(n: nat)
    requires n < 0x1_0000
    ensures n / 0x1000 < 0x10
    ensures n == n / 0x1000 * 0x1000 + n / 0x100 % 0x10 * 0x100 + n / 0x10 % 0x10 * 0x10 + n % 0x10
  {
    var t := n / 0x10;
    var u := t / 0x10;
    assert n / 0x100 == u && n / 0x1000 == u / 0x10;
  }

  lemma Hex4ReadsBack(n: nat, rest: seq<byte>)
    requires n < 0x1_0000
    ensures ParseHex4(Hex4(n) + rest) == Ok((n, rest))
  {
    hide Hex, HexDigit;
    Nibbles(n);
    var a, b, c, d := n / 0x1000, n / 0x100 % 0x10, n / 0x10 % 0x10, n % 0x10;
    HexRoundTrip(a);
    HexRoundTrip(b);
    HexRoundTrip(c);
    HexRoundTrip(d);
    assert Hex4(n) == [HexDigit(a), HexDigit(b), HexDigit(c), HexDigit(d)];
    assert (Hex4(n) + rest)[4..] == rest;
  }

  /** Every code point, surrogate pair or not, is read as its UTF-8 encoding. */
  lemma UnicodeReadsBack(codepoint: nat, rest: seq<byte>)
    requires Scalar(codepoint)
    ensures ParseUnicode(EscapedCodepoint(codepoint) + rest) == Ok((Utf8(codepoint), rest))
  {
    hide ParseHex4, Hex4, Utf8;
    var input := EscapedCodepoint(codepoint) + rest;
    if codepoint < 0x1_0000 {
      Hex4ReadsBack(codepoint, rest);
    } else {
      var high, low := 0xd800 + (codepoint - 0x1_0000) / 0x400, 0xdc00 + (codepoint - 0x1_0000) % 0x400;
      var second := [BACKSLASH, 0x75] + Hex4(low) + rest;
      assert input == Hex4(high) + second;
      Hex4ReadsBack(high, second);
      assert second[2..] == Hex4(low) + rest;
      Hex4ReadsBack(low, rest);
    }
  }

  /** A byte's value without its tag. */
  function Untag(b: byte, tag: nat): int {
    b - tag
  }

  /** The code point that an encoding of its length stands for (RFC 3629, section 3). */
  function CodepointOf(bytes: seq<byte>): int
    requires 1 <= |bytes| <= 4
  {
    if |bytes| == 1 then bytes[0]
    else if |bytes| == 2 then Untag(bytes[0], 0xc0) * 0x40 + Untag(bytes[1], 0x80)
    else if |bytes| == 3 then
      Untag(bytes[0], 0xe0) * 0x1000 + Untag(bytes[1], 0x80) * 0x40 + Untag(bytes[2], 0x80)
    else
      Untag(bytes[0], 0xf0) * 0x4_0000 + Untag(bytes[1], 0x80) * 0x1000 + Untag(bytes[2], 0x80) * 0x40
        + Untag(bytes[3], 0x80)
  }

  lemma Base64Digits(n: nat)
    ensures n == n / 0x40 * 0x40 + n % 0x40
    ensures n == n / 0x1000 * 0x1000 + n / 0x40 % 0x40 * 0x40 + n % 0x40
    ensures n == n / 0x4_0000 * 0x4_0000 + n / 0x1000 % 0x40 * 0x1000 + n / 0x40 % 0x40 * 0x40 + n % 0x40
  {
    var t := n / 0x40;
    var u := t / 0x40;
    assert n / 0x1000 == u && n / 0x4_0000 == u / 0x40;
  }

  lemma Utf8RoundTrip(codepoint: nat)
    requires Scalar(codepoint)
    ensures 1 <= |Utf8(codepoint)| <= 4 && CodepointOf(Utf8(codepoint)) == codepoint
  {
    Base64Digits(codepoint);
  }
}
