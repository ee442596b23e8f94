/** The parser reads exactly the JSON texts of the grammar, each as the value it stands for. */
module JsonReading {
  import opened Machine
  import opened Json
  import opened JsonRoundTrip
  import opened JsonGrammar
  import JsonNumbers

  // ---------------------------------------------------------------------
  // Spaces
  // ---------------------------------------------------------------------

  lemma {:induction false} SpacesSkipped(space: seq<byte>, rest: seq<byte>)
    requires AllSpace(space)
    ensures Skip(space + rest) == Skip(rest)
  {
    if space == [] {
      assert space + rest == rest;
    } else {
      assert (space + rest)[1..] == space[1..] + rest;
      SpacesSkipped(space[1..], rest);
    }
  }

  /** Spaces and then a byte that is none. */
  lemma SpacesThen(space: seq<byte>, rest: seq<byte>)
    requires AllSpace(space) && rest != [] && !IsSpace(rest[0])
    ensures Skip(space + rest) == rest
  {
    SpacesSkipped(space, rest);
    SkipNothing(rest);
  }

  /** Spaces before a byte that can follow a number can follow it, too. */
  lemma SpacesDelimit(space: seq<byte>, rest: seq<byte>)
    requires AllSpace(space) && Delimited(rest)
    ensures Delimited(space + rest)
  {
    assert space != [] ==> (space + rest)[0] == space[0];
    assert space == [] ==> space + rest == rest;
  }

  lemma MarkDelimits(c: byte, rest: seq<byte>)
    requires c == CLOSE_ARRAY || c == CLOSE_OBJECT || c == COMMA || c == COLON || c == QUOTE
    ensures Delimited([c] + rest) && !IsSpace(([c] + rest)[0]) && ([c] + rest)[1..] == rest
  {
  }

  // ---------------------------------------------------------------------
  // Strings
  // ---------------------------------------------------------------------

  lemma HexExact(c: byte)
    ensures Hex(c) == if IsHex(c) then Some(HexOf(c)) else None
  {
  }

  lemma FourRead(hex: seq<byte>, rest: seq<byte>)
    requires FourHex(hex)
    ensures ParseHex4(hex + rest) == Ok((UnitOf(hex), rest))
  {
    HexExact(hex[0]);
    HexExact(hex[1]);
    HexExact(hex[2]);
    HexExact(hex[3]);
    assert (hex + rest)[4..] == rest;
  }

  lemma ShortRead(letter: byte, rest: seq<byte>)
    requires ShortOf(letter).Some?
    ensures ParseEscape([letter] + rest) == Ok(([ShortOf(letter).value], rest))
  {
    hide ParseUnicode;
    assert ([letter] + rest)[1..] == rest;
  }

  lemma UnitRead(hex: seq<byte>, rest: seq<byte>)
    requires ValidChar(Unit(hex))
    ensures ParseUnicode(hex + rest) == Ok((CharBytes(Unit(hex)), rest))
  {
    hide ParseHex4, Utf8;
    FourRead(hex, rest);
  }

  lemma PairRead(high: seq<byte>, low: seq<byte>, rest: seq<byte>)
    requires ValidChar(Pair(high, low))
    ensures ParseUnicode(high + (UnitText(low) + rest)) == Ok((CharBytes(Pair(high, low)), rest))
  {
    hide ParseHex4, Utf8, UnitOf, FourHex;
    var second := UnitText(low) + rest;
    FourRead(high, second);
    assert second[2..] == low + rest;
    FourRead(low, rest);
  }

  lemma UnicodeEscape(input: seq<byte>)
    ensures ParseEscape([0x75] + input) == ParseUnicode(input)
  {
    hide ParseUnicode;
    assert ([0x75] + input)[1..] == input;
  }

  /** The bytes of an escape behind its backslash. */
  function EscapeText(c: Char): seq<byte>
    requires !c.Plain?
  {
    match c
    case Short(letter) => [letter]
    case Unit(hex) => [0x75] + hex
    case Pair(high, low) => [0x75] + (high + UnitText(low))
  }

  lemma BackslashFirst(c: Char)
    requires !c.Plain?
    ensures CharText(c) == [BACKSLASH] + EscapeText(c)
  {
    match c {
      case Short(letter) =>
      case Unit(hex) =>
      case Pair(high, low) =>
        Assoc([BACKSLASH, 0x75], high, UnitText(low));
        Assoc([BACKSLASH], [0x75], high + UnitText(low));
    }
  }

  lemma BehindBackslash(c: Char, rest: seq<byte>)
    requires !c.Plain?
    ensures CharText(c) + rest == [BACKSLASH] + (EscapeText(c) + rest)
    ensures (CharText(c) + rest)[1..] == EscapeText(c) + rest
  {
    hide CharText, EscapeText;
    BackslashFirst(c);
    Assoc([BACKSLASH], EscapeText(c), rest);
  }

  lemma EscapeRead(c: Char, rest: seq<byte>)
    requires ValidChar(c) && !c.Plain?
    ensures ParseEscape(EscapeText(c) + rest) == Ok((CharBytes(c), rest))
  {
    hide ParseEscape, ParseUnicode, Utf8, UnitOf, FourHex;
    match c {
      case Short(letter) =>
        ShortRead(letter, rest);
      case Unit(hex) =>
        assert [0x75] + hex + rest == [0x75] + (hex + rest);
        UnicodeEscape(hex + rest);
        UnitRead(hex, rest);
      case Pair(high, low) =>
        assert [0x75] + (high + UnitText(low)) + rest == [0x75] + (high + (UnitText(low) + rest));
        UnicodeEscape(high + (UnitText(low) + rest));
        PairRead(high, low, rest);
    }
  }

  lemma {:induction false} CharsRead(chars: seq<Char>, rest: seq<byte>)
    requires ValidChars(chars)
    ensures ParseChars(CharsTo(chars, [QUOTE] + rest)) == Ok((CharsBytes(chars), rest))
  {
    hide ParseEscape, CharBytes, CharText, EscapeText;
    if chars == [] {
      assert ([QUOTE] + rest)[1..] == rest;
    } else {
      var c, others := chars[0], CharsTo(chars[1..], [QUOTE] + rest);
      CharsRead(chars[1..], rest);
      if c.Plain? {
        PlainText(c);
        assert ([c.byte] + others)[1..] == others;
      } else {
        BehindBackslash(c, others);
        EscapeRead(c, others);
      }
    }
  }

  lemma PlainText(c: Char)
    requires c.Plain? && ValidChar(c)
    ensures CharText(c) == [c.byte] == CharBytes(c)
  {
  }

  // ---------------------------------------------------------------------
  // Values
  // ---------------------------------------------------------------------

  /** A text starts with none of the bytes that end or separate. */
  lemma TextStarts(s: Syntax, rest: seq<byte>, strtod: Strtod)
    requires Valid(s, strtod)
    ensures var text := SyntaxTo(s, rest);
            && text != [] && !IsSpace(text[0])
            && text[0] != CLOSE_ARRAY && text[0] != CLOSE_OBJECT && text[0] != COMMA
  {
    hide CharsTo, ListTo, EntriesTo;
    if s.Numeral? {
      NumberStarts(s.n, rest);
    }
  }

  lemma NumberStarts(n: JsonNumbers.Number, rest: seq<byte>)
    requires JsonNumbers.WellFormed(n)
    ensures var text := JsonNumbers.Text(n) + rest;
            text != [] && (text[0] == MINUS || IsDigit(text[0]))
  {
    hide JsonNumbers.FractionText, JsonNumbers.ExponentText;
    assert IsDigit(n.whole[0]);
    assert (JsonNumbers.Text(n) + rest)[0] == (JsonNumbers.SignText(n.negative) + n.whole)[0];
  }

  lemma NumberReads(n: JsonNumbers.Number, rest: seq<byte>, strtod: Strtod)
    requires Valid(Numeral(n), strtod) && Delimited(rest)
    ensures ParseValue(JsonNumbers.Text(n) + rest, strtod) == Ok((NumberValue(n, strtod), rest))
  {
    hide ParseNumber, JsonNumbers.Text, JsonNumbers.Signed, JsonNumbers.WellFormed;
    NumberStarts(n, rest);
    JsonNumbers.NumberIsRead(n, rest, strtod);
  }

  /** A value is read from its text, wherever it stands. */
  lemma {:induction false} ValueReads(s: Syntax, rest: seq<byte>, strtod: Strtod)
    requires Valid(s, strtod) && Delimited(rest)
    ensures ParseValue(SyntaxTo(s, rest), strtod) == Ok((ValueOf(s, strtod), rest))
    decreases s, 0
  {
    hide ParseLiteral, ParseNumber, ParseChars, ParseItems, ParseMembers, Skip, CharsTo, Delimited;
    hide ListTo, EntriesTo, ValuesOf, MembersOf, Arranged, JsonNumbers.WellFormed;
    var input := SyntaxTo(s, rest);
    match s {
      case NullWord => LiteralReadsBack(NULL_TEXT, Null, rest);
      case TrueWord => LiteralReadsBack(TRUE_TEXT, Bool(true), rest);
      case FalseWord => LiteralReadsBack(FALSE_TEXT, Bool(false), rest);
      case Numeral(n) => NumberReads(n, rest, strtod);
      case Quoted(chars) =>
        CharsRead(chars, rest);
        assert input[1..] == CharsTo(chars, [QUOTE] + rest);
      case List(space, items) => ListReads(space, items, rest, strtod);
      case Table(space, entries) => TableReads(space, entries, rest, strtod);
    }
  }

  lemma {:induction false} ListReads(space: seq<byte>, items: seq<Item>, rest: seq<byte>, strtod: Strtod)
    requires Valid(List(space, items), strtod)
    ensures ParseValue(SyntaxTo(List(space, items), rest), strtod) == Ok((Arr(ValuesOf(items, strtod)), rest))
    decreases items, 3
  {
    hide ParseItems, ListTo, Skip, AllSpace, Valid, ValidItem;
    var input := SyntaxTo(List(space, items), rest);
    if items == [] {
      assert input[1..] == space + ([CLOSE_ARRAY] + rest);
      MarkDelimits(CLOSE_ARRAY, rest);
      SpaceOf(List(space, items), strtod);
      SpacesThen(space, [CLOSE_ARRAY] + rest);
      assert ValuesOf(items, strtod) == [];
    } else {
      assert input[1..] == ListTo(items, rest);
      ItemsAreValid(space, items, strtod);
      ItemsStartWith(items, rest, strtod);
      ItemsRead(items, rest, strtod);
      ParseItemsSkips(ListTo(items, rest), strtod);
    }
  }

  lemma SpaceOf(s: Syntax, strtod: Strtod)
    requires Valid(s, strtod)
    ensures s.List? || s.Table? ==> AllSpace(s.space)
  {
  }

  ghost predicate ValidItems(items: seq<Item>, strtod: Strtod) {
    forall i :: 0 <= i < |items| ==> ValidItem(items[i], strtod)
  }

  lemma ItemsAreValid(space: seq<byte>, items: seq<Item>, strtod: Strtod)
    requires Valid(List(space, items), strtod)
    ensures ValidItems(items, strtod)
  {
    hide ValidItem;
  }

  lemma ItemIsValid(item: Item, strtod: Strtod)
    requires ValidItem(item, strtod)
    ensures AllSpace(item.before) && AllSpace(item.after) && Valid(item.item, strtod)
  {
  }

  lemma ItemsStartWith(items: seq<Item>, rest: seq<byte>, strtod: Strtod)
    requires items != [] && ValidItems(items, strtod)
    ensures var first := SyntaxTo(items[0].item, items[0].after + AfterListed(items, rest));
            Skip(ListTo(items, rest)) == first && !StartsWith(first, CLOSE_ARRAY)
  {
    hide SyntaxTo, Skip, AllSpace, Valid, AfterListed;
    assert ValidItem(items[0], strtod);
    ItemIsValid(items[0], strtod);
    var after := items[0].after + AfterListed(items, rest);
    TextStarts(items[0].item, after, strtod);
    SpacesThen(items[0].before, SyntaxTo(items[0].item, after));
  }

  lemma NextValue(items: seq<Item>, strtod: Strtod)
    requires items != [] && ValidItems(items, strtod)
    ensures Valid(items[0].item, strtod) && ValidItems(items[1..], strtod)
    ensures ValuesOf(items, strtod) == [ValueOf(items[0].item, strtod)] + ValuesOf(items[1..], strtod)
  {
    hide ValueOf, Valid;
    assert ValidItem(items[0], strtod);
    ItemIsValid(items[0], strtod);
    assert forall i :: 0 <= i < |items[1..]| ==> items[1..][i] == items[i + 1];
  }

  lemma {:induction false} ItemsRead(items: seq<Item>, rest: seq<byte>, strtod: Strtod)
    requires items != [] && ValidItems(items, strtod)
    ensures ParseItems(ListTo(items, rest), strtod) == Ok((ValuesOf(items, strtod), rest))
    decreases items, 2
  {
    hide SyntaxTo, Skip, AllSpace, Valid, ValidItem, ValidItems, Delimited, ParseValue, ValuesOf, ValueOf,
         ListTo;
    ItemsStartWith(items, rest, strtod);
    NextValue(items, strtod);
    FirstItem(items, strtod);
    var i, tail := items[0], AfterListed(items, rest);
    if |items| == 1 {
      MarkDelimits(CLOSE_ARRAY, rest);
      NoValues(items[1..], strtod);
      assert [ValueOf(i.item, strtod)] + [] == [ValueOf(i.item, strtod)];
    } else {
      MarkDelimits(COMMA, ListTo(items[1..], rest));
      ItemsRead(items[1..], rest, strtod);
    }
    SpacesDelimit(i.after, tail);
    SpacesThen(i.after, tail);
    ValueReads(i.item, i.after + tail, strtod);
  }

  lemma FirstItem(items: seq<Item>, strtod: Strtod)
    requires items != [] && ValidItems(items, strtod)
    ensures AllSpace(items[0].before) && AllSpace(items[0].after)
  {
    hide Valid;
    assert ValidItem(items[0], strtod);
  }

  lemma NoValues(items: seq<Item>, strtod: Strtod)
    requires items == []
    ensures ValidItems(items, strtod) && ValuesOf(items, strtod) == []
  {
  }

  // ---------------------------------------------------------------------
  // Objects
  // ---------------------------------------------------------------------

  ghost predicate ValidEntries(entries: seq<Entry>, strtod: Strtod) {
    forall i :: 0 <= i < |entries| ==> ValidEntry(entries[i], strtod)
  }

  ghost predicate KeysDiffer(members: seq<Member>) {
    forall i, j :: 0 <= i < j < |members| ==> members[i].key != members[j].key
  }

  /** None of the keys is there yet. */
  ghost predicate KeysNew(done: seq<Member>, members: seq<Member>) {
    forall i :: 0 <= i < |members| ==> !HasKey(done, members[i].key)
  }

  lemma EntryIsValid(e: Entry, strtod: Strtod)
    requires ValidEntry(e, strtod)
    ensures AllSpace(e.before) && AllSpace(e.beforeColon) && AllSpace(e.afterColon) && AllSpace(e.after)
    ensures ValidChars(e.key) && Valid(e.item, strtod)
  {
  }

  lemma EntriesAreValid(space: seq<byte>, entries: seq<Entry>, strtod: Strtod)
    requires Valid(Table(space, entries), strtod)
    ensures ValidEntries(entries, strtod) && KeysDiffer(MembersOf(entries, strtod))
    ensures KeysNew([], MembersOf(entries, strtod))
  {
    hide ValidEntry, ValueOf, CharsBytes;
  }

  lemma {:induction false} TableReads(space: seq<byte>, entries: seq<Entry>, rest: seq<byte>, strtod: Strtod)
    requires Valid(Table(space, entries), strtod)
    ensures ParseValue(SyntaxTo(Table(space, entries), rest), strtod)
         == Ok((ValueOf(Table(space, entries), strtod), rest))
    decreases entries, 3
  {
    hide ParseMembers, EntriesTo, Skip, AllSpace, Valid, ValidEntry, MembersOf;
    var input := SyntaxTo(Table(space, entries), rest);
    EntriesAreValid(space, entries, strtod);
    if entries == [] {
      assert input[1..] == space + ([CLOSE_OBJECT] + rest);
      MarkDelimits(CLOSE_OBJECT, rest);
      SpaceOf(Table(space, entries), strtod);
      SpacesThen(space, [CLOSE_OBJECT] + rest);
      assert MembersOf(entries, strtod) == [];
    } else {
      assert input[1..] == EntriesTo(entries, rest);
      EntriesStartWith(entries, rest, strtod);
      EntriesRead([], entries, rest, strtod);
      ParseMembersSkips(EntriesTo(entries, rest), [], strtod);
    }
  }

  lemma EntriesStartWith(entries: seq<Entry>, rest: seq<byte>, strtod: Strtod)
    requires entries != [] && ValidEntries(entries, strtod)
    ensures !StartsWith(Skip(EntriesTo(entries, rest)), CLOSE_OBJECT)
  {
    hide SyntaxTo, Skip, AllSpace, Valid, AfterEntry, ColonTo, CharsTo;
    assert ValidEntry(entries[0], strtod);
    EntryIsValid(entries[0], strtod);
    var e := entries[0];
    SpacesThen(e.before, QuotedTo(e.key, ColonTo(e, SyntaxTo(e.item, e.after + AfterEntry(entries, rest)))));
  }

  /** One key with its value. */
  lemma {:induction false} EntryReads(e: Entry, tail: seq<byte>, strtod: Strtod)
    requires ValidEntry(e, strtod) && Delimited(e.after + tail)
    ensures ValidChars(e.key) && Valid(e.item, strtod)
    ensures ParseMember(e.before + QuotedTo(e.key, ColonTo(e, SyntaxTo(e.item, e.after + tail))), strtod)
         == Ok((Member(CharsBytes(e.key), ValueOf(e.item, strtod)), e.after + tail))
    decreases e, 4
  {
    EntryIsValid(e, strtod);
    hide SyntaxTo, Skip, AllSpace, Valid, ValidEntry, Delimited, ParseValue, ParseChars, CharsTo, CharsBytes, ValueOf,
         ValidChars;
    var text := SyntaxTo(e.item, e.after + tail);
    var quoted := QuotedTo(e.key, ColonTo(e, text));
    SpacesThen(e.before, quoted);
    assert quoted[1..] == CharsTo(e.key, [QUOTE] + ColonTo(e, text));
    CharsRead(e.key, ColonTo(e, text));
    MarkDelimits(COLON, e.afterColon + text);
    SpacesThen(e.beforeColon, [COLON] + (e.afterColon + text));
    TextStarts(e.item, e.after + tail, strtod);
    SpacesThen(e.afterColon, text);
    ValueReads(e.item, e.after + tail, strtod);
  }

  lemma NextEntry(entries: seq<Entry>, strtod: Strtod)
    requires entries != [] && ValidEntries(entries, strtod)
    ensures ValidEntry(entries[0], strtod) && AllSpace(entries[0].after) && ValidEntries(entries[1..], strtod)
    ensures ValidChars(entries[0].key) && Valid(entries[0].item, strtod)
    ensures MembersOf(entries, strtod)
         == [Member(CharsBytes(entries[0].key), ValueOf(entries[0].item, strtod))] + MembersOf(entries[1..], strtod)
  {
    hide ValueOf, Valid, CharsBytes;
    assert ValidEntry(entries[0], strtod);
    EntryIsValid(entries[0], strtod);
    assert forall i :: 0 <= i < |entries[1..]| ==> entries[1..][i] == entries[i + 1];
  }

  lemma InsertedKeys(done: seq<Member>, m: Member, key: seq<byte>)
    ensures HasKey(Insert(done, m), key) <==> HasKey(done, key) || m.key == key
  {
    hide Insert;
    InsertHolds(done, m);
    var grown := Insert(done, m);
    if HasKey(grown, key) {
      var i :| 0 <= i < |grown| && grown[i].key == key;
      assert grown[i] in multiset(grown);
      assert grown[i] == m || grown[i] in done;
    }
    if HasKey(done, key) {
      var i :| 0 <= i < |done| && done[i].key == key;
      assert done[i] in multiset(grown);
      assert done[i] in grown;
    }
    assert m in multiset(grown);
    assert m in grown;
  }

  lemma KeysStayNew(done: seq<Member>, members: seq<Member>)
    requires members != [] && KeysDiffer(members) && KeysNew(done, members)
    ensures KeysNew(Insert(done, members[0]), members[1..]) && KeysDiffer(members[1..])
    ensures !HasKey(done, members[0].key)
  {
    hide HasKey, Insert;
    forall i | 0 <= i < |members[1..]|
      ensures !HasKey(Insert(done, members[0]), members[1..][i].key)
    {
      assert members[1..][i] == members[i + 1];
      InsertedKeys(done, members[0], members[i + 1].key);
    }
  }

  lemma {:induction false} EntriesRead(done: seq<Member>, entries: seq<Entry>, rest: seq<byte>, strtod: Strtod)
    requires entries != [] && ValidEntries(entries, strtod)
    requires KeysDiffer(MembersOf(entries, strtod)) && KeysNew(done, MembersOf(entries, strtod))
    ensures ParseMembers(EntriesTo(entries, rest), done, strtod)
         == Ok((Arranged(done, MembersOf(entries, strtod)), rest))
    decreases entries, 2
  {
    hide SyntaxTo, Skip, AllSpace, Valid, ValidEntry, Delimited, ParseMember, MembersOf, ValueOf, EntriesTo,
         KeysDiffer, KeysNew, HasKey, Insert, ColonTo, CharsTo, CharsBytes;
    NextEntry(entries, strtod);
    var e, tail, all := entries[0], AfterEntry(entries, rest), MembersOf(entries, strtod);
    KeysStayNew(done, all);
    assert all[1..] == MembersOf(entries[1..], strtod);
    EntriesText(entries, rest);
    if |entries| == 1 {
      MarkDelimits(CLOSE_OBJECT, rest);
      assert all[1..] == [];
    } else {
      MarkDelimits(COMMA, EntriesTo(entries[1..], rest));
      EntriesRead(Insert(done, all[0]), entries[1..], rest, strtod);
    }
    SpacesDelimit(e.after, tail);
    SpacesThen(e.after, tail);
    EntryReads(e, tail, strtod);
  }

  lemma EntriesText(entries: seq<Entry>, rest: seq<byte>)
    requires entries != []
    ensures var e := entries[0];
            EntriesTo(entries, rest)
              == e.before + QuotedTo(e.key, ColonTo(e, SyntaxTo(e.item, e.after + AfterEntry(entries, rest))))
  {
  }

  // ---------------------------------------------------------------------
  // Nothing else is read: strings
  // ---------------------------------------------------------------------

  /** The spaces in front. */
  function Lead(input: seq<byte>): seq<byte> {
    if input != [] && IsSpace(input[0]) then [input[0]] + Lead(input[1..]) else []
  }

  lemma {:induction false} LeadIsSpace(input: seq<byte>)
    ensures AllSpace(Lead(input)) && input == Lead(input) + Skip(input)
  {
    if input != [] && IsSpace(input[0]) {
      LeadIsSpace(input[1..]);
      assert input == [input[0]] + input[1..];
    }
  }

  lemma FourParsed(input: seq<byte>)
    requires ParseHex4(input).Ok?
    ensures FourHex(input[..4]) && input == input[..4] + ParseHex4(input).value.1
    ensures ParseHex4(input).value.0 == UnitOf(input[..4])
  {
    HexExact(input[0]);
    HexExact(input[1]);
    HexExact(input[2]);
    HexExact(input[3]);
  }

  lemma UnicodeParsed(input: seq<byte>) returns (c: Char)
    requires ParseUnicode(input).Ok?
    ensures ValidChar(c) && !c.Plain? && [0x75] + input == EscapeText(c) + ParseUnicode(input).value.1
    ensures CharBytes(c) == ParseUnicode(input).value.0
  {
    hide ParseHex4, Utf8, UnitOf, FourHex;
    FourParsed(input);
    var unit, rest := ParseHex4(input).value.0, ParseHex4(input).value.1;
    if IsHigh(unit) {
      FourParsed(rest[2..]);
      c := Pair(input[..4], rest[2..][..4]);
      assert rest == UnitText(rest[2..][..4]) + ParseHex4(rest[2..]).value.1;
    } else {
      c := Unit(input[..4]);
    }
  }

  lemma EscapeParsed(input: seq<byte>) returns (c: Char)
    requires ParseEscape(input).Ok?
    ensures ValidChar(c) && !c.Plain? && input == EscapeText(c) + ParseEscape(input).value.1
    ensures CharBytes(c) == ParseEscape(input).value.0
  {
    hide ParseUnicode;
    assert input == [input[0]] + input[1..];
    if input[0] == 0x75 {
      c := UnicodeParsed(input[1..]);
    } else {
      c := Short(input[0]);
    }
  }

  lemma {:induction false} CharsParsed(input: seq<byte>) returns (chars: seq<Char>)
    requires ParseChars(input).Ok?
    ensures ValidChars(chars) && CharsBytes(chars) == ParseChars(input).value.0
    ensures input == CharsTo(chars, [QUOTE] + ParseChars(input).value.1)
    decreases |input|
  {
    hide ParseEscape, EscapeText, CharBytes, CharText;
    assert input == [input[0]] + input[1..];
    if input[0] == QUOTE {
      return [];
    }
    var c := Plain(input[0]);
    var others: seq<Char>;
    if input[0] != BACKSLASH {
      PlainText(c);
      others := CharsParsed(input[1..]);
    } else {
      c := EscapeParsed(input[1..]);
      others := CharsParsed(ParseEscape(input[1..]).value.1);
      BehindBackslash(c, ParseEscape(input[1..]).value.1);
    }
    chars := [c] + others;
    assert chars[1..] == others;
  }

  // ---------------------------------------------------------------------
  // Nothing else is read: values
  // ---------------------------------------------------------------------

  lemma LiteralParsed(input: seq<byte>, text: seq<byte>, v: Value)
    requires text != [] && ParseLiteral(input, text, v).Ok?
    ensures input == text + ParseLiteral(input, text, v).value.1
  {
  }

  lemma NumberParsed(input: seq<byte>, strtod: Strtod) returns (n: JsonNumbers.Number)
    requires ParseNumber(input, strtod).Ok?
    ensures Valid(Numeral(n), strtod) && NumberValue(n, strtod) == ParseNumber(input, strtod).value.0
    ensures input == JsonNumbers.Text(n) + ParseNumber(input, strtod).value.1
  {
    var rest: seq<byte>;
    hide ParseNumber, JsonNumbers.Text, JsonNumbers.Signed, JsonNumbers.WellFormed, JsonNumbers.Stops;
    n, rest := JsonNumbers.OnlyNumbersAreRead(input, strtod);
    JsonNumbers.NumberIsRead(n, rest, strtod);
  }

  lemma {:induction false} ValueParsed(input: seq<byte>, strtod: Strtod) returns (s: Syntax)
    requires ParseValue(input, strtod).Ok?
    ensures Valid(s, strtod) && ValueOf(s, strtod) == ParseValue(input, strtod).value.0
    ensures input == SyntaxTo(s, ParseValue(input, strtod).value.1)
    decreases |input|, 4
  {
    hide ParseLiteral, ParseNumber, ParseChars, ParseItems, ParseMembers, Skip, CharsTo, JsonNumbers.WellFormed;
    var front := [input[0]];
    assert input == front + input[1..];
    if input[0] == NULL_TEXT[0] {
      LiteralParsed(input, NULL_TEXT, Null);
      return NullWord;
    } else if input[0] == TRUE_TEXT[0] {
      LiteralParsed(input, TRUE_TEXT, Bool(true));
      return TrueWord;
    } else if input[0] == FALSE_TEXT[0] {
      LiteralParsed(input, FALSE_TEXT, Bool(false));
      return FalseWord;
    } else if input[0] == QUOTE {
      var chars := CharsParsed(input[1..]);
      return Quoted(chars);
    } else if input[0] == OPEN_ARRAY {
      s := ListParsed(input, strtod);
    } else if input[0] == OPEN_OBJECT {
      s := TableParsed(input, strtod);
    } else {
      var n := NumberParsed(input, strtod);
      return Numeral(n);
    }
  }

  lemma {:induction false} ListParsed(input: seq<byte>, strtod: Strtod) returns (s: Syntax)
    requires input != [] && input[0] == OPEN_ARRAY && ParseValue(input, strtod).Ok?
    ensures Valid(s, strtod) && ValueOf(s, strtod) == ParseValue(input, strtod).value.0
    ensures input == SyntaxTo(s, ParseValue(input, strtod).value.1)
    decreases |input|, 3
  {
    hide ParseItems, Skip, ValidItem, AllSpace;
    var body := Skip(input[1..]);
    assert input == [OPEN_ARRAY] + input[1..];
    LeadIsSpace(input[1..]);
    if StartsWith(body, CLOSE_ARRAY) {
      s := List(Lead(input[1..]), []);
      assert body == [CLOSE_ARRAY] + body[1..];
      assert ValuesOf([], strtod) == [];
    } else {
      ParseItemsSkips(input[1..], strtod);
      var items := ItemsParsed(input[1..], strtod);
      s := List([], items);
      NoSpace();
    }
  }

  lemma NoSpace()
    ensures AllSpace([])
  {
  }

  lemma JoinItems(item: Item, others: seq<Item>, strtod: Strtod)
    requires AllSpace(item.before) && AllSpace(item.after) && Valid(item.item, strtod) && ValidItems(others, strtod)
    ensures ValidItems([item] + others, strtod) && ([item] + others)[1..] == others
    ensures ValuesOf([item] + others, strtod) == [ValueOf(item.item, strtod)] + ValuesOf(others, strtod)
  {
    hide Valid, ValueOf, AllSpace;
    var all := [item] + others;
    forall i | 0 <= i < |all|
      ensures ValidItem(all[i], strtod)
    {
      assert i > 0 ==> all[i] == others[i - 1];
    }
  }

  lemma {:induction false} ItemsParsed(input: seq<byte>, strtod: Strtod) returns (items: seq<Item>)
    requires ParseItems(input, strtod).Ok?
    ensures items != [] && ValidItems(items, strtod)
    ensures ValuesOf(items, strtod) == ParseItems(input, strtod).value.0
    ensures input == ListTo(items, ParseItems(input, strtod).value.1)
    decreases |input|, 5
  {
    hide ParseValue, Skip, Lead, Valid, ValidItems, AllSpace, SyntaxTo, ValueOf, ValuesOf;
    var first := Skip(input);
    LeadIsSpace(input);
    var s := ValueParsed(first, strtod);
    var after := ParseValue(first, strtod).value.1;
    LeadIsSpace(after);
    var tail, rest := Skip(after), ParseItems(input, strtod).value.1;
    var item := Item(Lead(input), s, Lead(after));
    assert tail == [tail[0]] + tail[1..];
    var others: seq<Item> := [];
    NoValues([], strtod);
    if !StartsWith(tail, CLOSE_ARRAY) {
      others := ItemsParsed(tail[1..], strtod);
    }
    JoinItems(item, others, strtod);
    items := [item] + others;
    assert AfterListed(items, rest) == tail;
    assert [ValueOf(s, strtod)] + [] == [ValueOf(s, strtod)];
  }

  // ---------------------------------------------------------------------
  // Nothing else is read: objects
  // ---------------------------------------------------------------------

  lemma {:induction false} TableParsed(input: seq<byte>, strtod: Strtod) returns (s: Syntax)
    requires input != [] && input[0] == OPEN_OBJECT && ParseValue(input, strtod).Ok?
    ensures Valid(s, strtod) && ValueOf(s, strtod) == ParseValue(input, strtod).value.0
    ensures input == SyntaxTo(s, ParseValue(input, strtod).value.1)
    decreases |input|, 3
  {
    hide ParseMembers, Skip, AllSpace, MembersOf, ValidEntries, KeysNew;
    var body := Skip(input[1..]);
    assert input == [OPEN_OBJECT] + input[1..];
    LeadIsSpace(input[1..]);
    NoSpace();
    if StartsWith(body, CLOSE_OBJECT) {
      s := Table(Lead(input[1..]), []);
      NoMembers([], strtod);
      assert body == [CLOSE_OBJECT] + body[1..];
    } else {
      ParseMembersSkips(input[1..], [], strtod);
      var entries := EntriesParsed([], input[1..], strtod);
      s := Table([], entries);
      TableIsValid(entries, strtod);
    }
  }

  lemma NoMembers(entries: seq<Entry>, strtod: Strtod)
    requires entries == []
    ensures ValidEntries(entries, strtod) && MembersOf(entries, strtod) == []
  {
  }

  lemma TableIsValid(entries: seq<Entry>, strtod: Strtod)
    requires ValidEntries(entries, strtod) && KeysDiffer(MembersOf(entries, strtod))
    ensures Valid(Table([], entries), strtod)
  {
    hide ValidEntry, CharsBytes, ValueOf;
    var members := MembersOf(entries, strtod);
    forall i, j | 0 <= i < j < |entries|
      ensures ValidEntry(entries[i], strtod) && ValidEntry(entries[j], strtod)
      ensures ValidChars(entries[i].key) && ValidChars(entries[j].key)
      ensures CharsBytes(entries[i].key) != CharsBytes(entries[j].key)
    {
      EntryIsValid(entries[i], strtod);
      EntryIsValid(entries[j], strtod);
      assert members[i].key == CharsBytes(entries[i].key) && members[j].key == CharsBytes(entries[j].key);
    }
  }

  lemma {:induction false} EntryParsed(input: seq<byte>, strtod: Strtod) returns (e: Entry)
    requires ParseMember(input, strtod).Ok?
    ensures var r := ParseMember(input, strtod).value;
            && ValidEntry(e, strtod) && ValidChars(e.key) && Valid(e.item, strtod)
            && r.0 == Member(CharsBytes(e.key), ValueOf(e.item, strtod))
            && e.after == Lead(r.1)
            && input == e.before + QuotedTo(e.key, ColonTo(e, SyntaxTo(e.item, r.1)))
    decreases |input|, 5
  {
    hide ParseValue, ParseChars, Skip, Lead, Valid, AllSpace, SyntaxTo, ValueOf, CharsTo, CharsBytes, ValidChars;
    var start := Skip(input);
    LeadIsSpace(input);
    var chars := CharsParsed(start[1..]);
    var colon := ParseChars(start[1..]).value.1;
    LeadIsSpace(colon);
    var behind := Skip(colon)[1..];
    LeadIsSpace(behind);
    var s := ValueParsed(Skip(behind), strtod);
    var rest := ParseMember(input, strtod).value.1;
    LeadIsSpace(rest);
    e := Entry(Lead(input), chars, Lead(colon), Lead(behind), s, Lead(rest));
    assert start == [QUOTE] + start[1..];
    assert Skip(colon) == [COLON] + behind;
    assert colon == ColonTo(e, SyntaxTo(s, rest));
  }

  lemma JoinEntries(e: Entry, others: seq<Entry>, strtod: Strtod)
    requires ValidEntry(e, strtod) && ValidChars(e.key) && Valid(e.item, strtod) && ValidEntries(others, strtod)
    ensures ValidEntries([e] + others, strtod) && ([e] + others)[1..] == others
    ensures MembersOf([e] + others, strtod)
         == [Member(CharsBytes(e.key), ValueOf(e.item, strtod))] + MembersOf(others, strtod)
  {
    hide Valid, ValueOf, CharsBytes, ValidEntry;
    var all := [e] + others;
    forall i | 0 <= i < |all|
      ensures ValidEntry(all[i], strtod)
    {
      assert i > 0 ==> all[i] == others[i - 1];
    }
  }

  lemma KeysJoin(done: seq<Member>, m: Member, others: seq<Member>)
    requires !HasKey(done, m.key) && KeysDiffer(others) && KeysNew(Insert(done, m), others)
    ensures KeysDiffer([m] + others) && KeysNew(done, [m] + others)
    ensures Arranged(done, [m] + others) == Arranged(Insert(done, m), others)
  {
    hide HasKey, Insert;
    var all := [m] + others;
    assert all[1..] == others && all[0] == m;
    forall i | 0 < i < |all|
      ensures !HasKey(done, all[i].key) && all[i].key != m.key
    {
      assert all[i] == others[i - 1];
      InsertedKeys(done, m, all[i].key);
    }
    forall i, j | 0 <= i < j < |all|
      ensures all[i].key != all[j].key
    {
      assert all[j] == others[j - 1];
      assert i > 0 ==> all[i] == others[i - 1];
    }
  }

  lemma {:induction false} EntriesParsed(done: seq<Member>, input: seq<byte>, strtod: Strtod)
    returns (entries: seq<Entry>)
    requires ParseMembers(input, done, strtod).Ok?
    ensures entries != [] && ValidEntries(entries, strtod)
    ensures KeysDiffer(MembersOf(entries, strtod)) && KeysNew(done, MembersOf(entries, strtod))
    ensures Arranged(done, MembersOf(entries, strtod)) == ParseMembers(input, done, strtod).value.0
    ensures input == EntriesTo(entries, ParseMembers(input, done, strtod).value.1)
    decreases |input|, 6
  {
    hide ParseMember, Skip, Lead, Valid, ValidEntry, AllSpace, SyntaxTo, ValueOf, CharsTo, CharsBytes, ValidChars,
         MembersOf, Insert, HasKey, KeysDiffer, KeysNew, Arranged, ColonTo, QuotedTo;
    var e := EntryParsed(input, strtod);
    var m := ParseMember(input, strtod).value;
    LeadIsSpace(m.1);
    var tail, rest := Skip(m.1), ParseMembers(input, done, strtod).value.1;
    assert tail == [tail[0]] + tail[1..];
    var others: seq<Entry> := [];
    NoMembers([], strtod);
    NothingArranged(Insert(done, m.0));
    if !StartsWith(tail, CLOSE_OBJECT) {
      others := EntriesParsed(Insert(done, m.0), tail[1..], strtod);
    }
    JoinEntries(e, others, strtod);
    KeysJoin(done, m.0, MembersOf(others, strtod));
    entries := [e] + others;
    assert AfterEntry(entries, rest) == tail;
  }

  lemma NothingArranged(done: seq<Member>)
    ensures Arranged(done, []) == done && KeysDiffer([]) && KeysNew(done, [])
  {
  }

  // ---------------------------------------------------------------------
  // Whole texts
  // ---------------------------------------------------------------------

  ghost predicate ValidDocument(d: Document, strtod: Strtod) {
    AllSpace(d.before) && AllSpace(d.after) && Valid(d.root, strtod)
  }

  function DocumentText(d: Document): seq<byte> {
    d.before + SyntaxTo(d.root, d.after)
  }

  lemma OnlySpace(space: seq<byte>)
    requires AllSpace(space)
    ensures Skip(space) == [] && Delimited(space)
  {
    SpacesSkipped(space, []);
    assert space + [] == space;
  }

  /** Every text of the grammar is read as its value. */
  lemma DocumentReads(d: Document, strtod: Strtod)
    requires ValidDocument(d, strtod)
    ensures Parse(DocumentText(d), strtod) == Ok(ValueOf(d.root, strtod))
  {
    hide ParseValue, Skip, SyntaxTo, AllSpace, Valid, Delimited, ValueOf;
    OnlySpace(d.after);
    TextStarts(d.root, d.after, strtod);
    SpacesThen(d.before, SyntaxTo(d.root, d.after));
    ValueReads(d.root, d.after, strtod);
  }

  /** And every text that is read is one of the grammar. */
  lemma DocumentParsed(text: seq<byte>, strtod: Strtod) returns (d: Document)
    requires Parse(text, strtod).Ok?
    ensures ValidDocument(d, strtod) && DocumentText(d) == text && ValueOf(d.root, strtod) == Parse(text, strtod).value
  {
    hide ParseValue, Skip, SyntaxTo, AllSpace, Valid, ValueOf, Lead;
    LeadIsSpace(text);
    var s := ValueParsed(Skip(text), strtod);
    var rest := ParseValue(Skip(text), strtod).value.1;
    LeadIsSpace(rest);
    assert Lead(rest) + [] == Lead(rest);
    d := Document(Lead(text), s, rest);
  }

  /** The parser decides the grammar: a text is read as a value if and only if it is the text of a
      document that stands for this value. */
  lemma ParseIff(text: seq<byte>, v: Value, strtod: Strtod)
    ensures Parse(text, strtod) == Ok(v) <==>
            exists d: Document :: ValidDocument(d, strtod) && DocumentText(d) == text && ValueOf(d.root, strtod) == v
  {
    hide Parse, DocumentText, ValueOf, Valid, AllSpace;
    if Parse(text, strtod) == Ok(v) {
      var d := DocumentParsed(text, strtod);
    }
    forall d: Document | ValidDocument(d, strtod) && DocumentText(d) == text
      ensures Parse(text, strtod) == Ok(ValueOf(d.root, strtod))
    {
      DocumentReads(d, strtod);
    }
  }

  /** The members of an object are its entries, sorted by key. */
  lemma {:induction false} ArrangedExact(done: seq<Member>, members: seq<Member>)
    requires Sorted(done) && KeysDiffer(members) && KeysNew(done, members)
    ensures Sorted(Arranged(done, members))
    ensures multiset(Arranged(done, members)) == multiset(done) + multiset(members)
    decreases |members|
  {
    hide Sorted, Insert, HasKey, KeysDiffer, KeysNew;
    if members != [] {
      KeysStayNew(done, members);
      InsertSorts(done, members[0]);
      InsertHolds(done, members[0]);
      ArrangedExact(Insert(done, members[0]), members[1..]);
      assert members == [members[0]] + members[1..];
    }
  }
}
