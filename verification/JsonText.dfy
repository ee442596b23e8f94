/** The JSON parser and printer as they run (src/base/Json.cpp): a parser with a position in
    its text, and a printer that appends to a stream. */
module JsonText {
  import opened Machine
  import opened Json

  class Parser {
    const text: seq<byte>
    const strtod: Strtod
    var position: nat

    ghost predicate Valid()
      reads this
    {
      position <= |text|
    }

    ghost function Rest(): seq<byte>
      reads this
      requires Valid()
    {
      text[position..]
    }

    constructor (text: seq<byte>, strtod: Strtod)
      ensures Valid() && Rest() == text && this.text == text && this.strtod == strtod
    {
      this.text, this.strtod, position := text, strtod, 0;
    }

    method SkipWhitespace()
      requires Valid()
      modifies this
      ensures Valid() && Rest() == Skip(old(Rest()))
      ensures position >= old(position)
    {
      while position < |text| && IsSpace(text[position])
        invariant Valid() && old(position) <= position
        invariant Skip(Rest()) == Skip(old(Rest()))
      {
        assert Rest()[1..] == text[position + 1..];
        position := position + 1;
      }
    }

    method Consume(c: byte) returns (consumed: bool)
      requires Valid()
      modifies this
      ensures Valid() && consumed == StartsWith(old(Rest()), c)
      ensures Rest() == (if consumed then old(Rest())[1..] else old(Rest()))
      ensures position == (if consumed then old(position) + 1 else old(position))
    {
      if position < |text| && text[position] == c {
        assert Rest()[1..] == text[position + 1..];
        position := position + 1;
        return true;
      }
      return false;
    }

    method Expect(token: seq<byte>, v: Value) returns (result: Result<Value, JsonFault>)
      requires Valid() && token != []
      modifies this
      ensures Valid() && position >= old(position)
      ensures var parsed := ParseLiteral(old(Rest()), token, v);
              && (parsed.Err? ==> result == Err(parsed.error))
              && (parsed.Ok? ==> result == Ok(parsed.value.0) && Rest() == parsed.value.1)
    {
      if position + |token| > |text| || text[position..position + |token|] != token {
        assert !(token <= Rest());
        return Err(InvalidLiteral);
      }
      assert Rest()[..|token|] == token && Rest()[|token|..] == text[position + |token|..];
      position := position + |token|;
      return Ok(v);
    }

    method TakeHex4() returns (result: Result<nat, JsonFault>)
      requires Valid()
      modifies this
      ensures Valid() && position >= old(position)
      ensures var parsed := ParseHex4(old(Rest()));
              && (parsed.Err? ==> result == Err(parsed.error))
              && (parsed.Ok? ==> result == Ok(parsed.value.0) && Rest() == parsed.value.1)
    {
      if position + 4 > |text| {
        return Err(TruncatedUnicode);
      }
      ghost var rest := Rest();
      var value := 0;
      var start := position;
      for i := 0 to 4
        invariant Valid() && position == start + i
        invariant forall j :: 0 <= j < i ==> Hex(rest[j]).Some?
        invariant i == 0 ==> value == 0
        invariant i == 1 ==> value == Hex(rest[0]).value
        invariant i == 2 ==> value == Hex(rest[0]).value * 0x10 + Hex(rest[1]).value
        invariant i == 3 ==> value == Hex(rest[0]).value * 0x100 + Hex(rest[1]).value * 0x10 + Hex(rest[2]).value
        invariant i == 4 ==> value == Hex(rest[0]).value * 0x1000 + Hex(rest[1]).value * 0x100
                                      + Hex(rest[2]).value * 0x10 + Hex(rest[3]).value
      {
        assert text[position] == rest[i];
        var digit := Hex(text[position]);
        position := position + 1;
        if digit.None? {
          return Err(InvalidUnicode);
        }
        value := value * 0x10 + digit.value;
      }
      assert Rest() == rest[4..];
      return Ok(value);
    }

    /** After "\\u". */
    method TakeUnicode() returns (result: Result<seq<byte>, JsonFault>)
      requires Valid()
      modifies this
      ensures Valid() && position >= old(position)
      ensures var parsed := ParseUnicode(old(Rest()));
              && (parsed.Err? ==> result == Err(parsed.error))
              && (parsed.Ok? ==> result == Ok(parsed.value.0) && Rest() == parsed.value.1)
    {
      hide ParseHex4, Utf8;
      var first := TakeHex4();
      if first.Err? {
        return Err(first.error);
      }
      var codepoint := first.value;
      if 0xd800 <= codepoint <= 0xdbff {
        if position + 2 > |text| || text[position] != BACKSLASH || text[position + 1] != 0x75 {
          return Err(MissingLowSurrogate);
        }
        assert Rest()[2..] == text[position + 2..];
        position := position + 2;
        var low := TakeHex4();
        if low.Err? {
          return Err(low.error);
        }
        if low.value < 0xdc00 || low.value > 0xdfff {
          return Err(InvalidLowSurrogate);
        }
        codepoint := 0x1_0000 + (codepoint - 0xd800) * 0x400 + (low.value - 0xdc00);
      } else if 0xdc00 <= codepoint <= 0xdfff {
        return Err(OrphanLowSurrogate);
      }
      return Ok(Utf8(codepoint));
    }

    /** After a backslash. */
    method TakeEscape() returns (result: Result<seq<byte>, JsonFault>)
      requires Valid()
      modifies this
      ensures Valid() && position >= old(position)
      ensures var parsed := ParseEscape(old(Rest()));
              && (parsed.Err? ==> result == Err(parsed.error))
              && (parsed.Ok? ==> result == Ok(parsed.value.0) && Rest() == parsed.value.1)
    {
      hide ParseUnicode;
      if position >= |text| {
        return Err(TruncatedEscape);
      }
      var escaped := text[position];
      assert Rest()[1..] == text[position + 1..];
      position := position + 1;
      if escaped == QUOTE || escaped == BACKSLASH || escaped == 0x2f {
        return Ok([escaped]);
      } else if escaped == 0x62 {
        return Ok([0x08]);
      } else if escaped == 0x66 {
        return Ok([0x0c]);
      } else if escaped == 0x6e {
        return Ok([0x0a]);
      } else if escaped == 0x72 {
        return Ok([0x0d]);
      } else if escaped == 0x74 {
        return Ok([0x09]);
      } else if escaped == 0x75 {
        result := TakeUnicode();
        return result;
      }
      return Err(InvalidEscape);
    }

    /** After the opening quote: the loop over the bytes of a string. */
    method TakeString() returns (result: Result<seq<byte>, JsonFault>)
      requires Valid()
      modifies this
      ensures Valid() && position >= old(position)
      ensures var parsed := ParseChars(old(Rest()));
              && (parsed.Err? ==> result == Err(parsed.error))
              && (parsed.Ok? ==> result == Ok(parsed.value.0) && Rest() == parsed.value.1)
    {
      hide ParseEscape;
      var out: seq<byte> := [];
      ghost var whole := ParseChars(Rest());
      NothingInFront<byte>();
      while position < |text|
        invariant Valid() && old(position) <= position
        invariant var more := ParseChars(Rest());
                  && (more.Err? ==> whole == Err(more.error))
                  && (more.Ok? ==> whole == Ok((out + more.value.0, more.value.1)))
        decreases |text| - position
      {
        ghost var rest := Rest();
        var c := text[position];
        assert rest[1..] == text[position + 1..];
        position := position + 1;
        if c == QUOTE {
          assert out + [] == out;
          return Ok(out);
        }
        if c < 0x20 {
          return Err(ControlByte);
        }
        if c != BACKSLASH {
          InFront(out, [c]);
          out := out + [c];
        } else {
          var escaped := TakeEscape();
          if escaped.Err? {
            return Err(escaped.error);
          }
          InFront(out, escaped.value);
          out := out + escaped.value;
        }
      }
      return Err(UnterminatedString);
    }

    /** The digits at the position. */
    method TakeDigits() returns (count: nat)
      requires Valid()
      modifies this
      ensures Valid() && count == DigitRun(old(Rest())) && position == old(position) + count
    {
      count := 0;
      while position < |text| && IsDigit(text[position])
        invariant Valid() && position == old(position) + count
        invariant DigitRun(old(Rest())) == count + DigitRun(Rest())
        decreases |text| - position
      {
        assert Rest()[1..] == text[position + 1..];
        position := position + 1;
        count := count + 1;
      }
    }

    method TakeInteger() returns (result: Result<nat, JsonFault>)
      requires Valid()
      modifies this
      ensures Valid() && result == IntegerRun(old(Rest()))
      ensures result.Ok? ==> position == old(position) + result.value
      ensures position >= old(position)
    {
      if position >= |text| {
        return Err(TruncatedNumber);
      }
      if text[position] == ZERO {
        position := position + 1;
        return Ok(1);
      }
      if !IsDigit(text[position]) {
        return Err(InvalidInteger);
      }
      var count := TakeDigits();
      return Ok(count);
    }

    method TakeFraction() returns (result: Result<nat, JsonFault>)
      requires Valid()
      modifies this
      ensures Valid() && result == FractionRun(old(Rest()))
      ensures result.Ok? ==> position == old(position) + result.value
      ensures position >= old(position)
    {
      var dot := Consume(DOT);
      if !dot {
        return Ok(0);
      }
      var count := TakeDigits();
      return if count == 0 then Err(EmptyFraction) else Ok(1 + count);
    }

    method TakeExponent() returns (result: Result<nat, JsonFault>)
      requires Valid()
      modifies this
      ensures Valid() && result == ExponentRun(old(Rest()))
      ensures result.Ok? ==> position == old(position) + result.value
      ensures position >= old(position)
    {
      hide DigitRun, IsDigit;
      if position >= |text| || (text[position] != 0x65 && text[position] != 0x45) {
        return Ok(0);
      }
      ghost var rest := Rest();
      position := position + 1;
      assert Rest() == rest[1..];
      var sign := 0;
      if position < |text| && (text[position] == PLUS || text[position] == MINUS) {
        sign := 1;
        position := position + 1;
      }
      assert Rest() == rest[1 + sign..];
      var count := TakeDigits();
      return if count == 0 then Err(EmptyExponent) else Ok(1 + sign + count);
    }

    /** An unsigned number's digits, fraction and exponent. */
    method TakeShape() returns (result: Result<Shape, JsonFault>)
      requires Valid()
      modifies this
      ensures Valid() && result == ShapeOf(old(Rest()))
      ensures result.Ok? ==> position == old(position) + result.value.Length()
      ensures position >= old(position)
    {
      hide IntegerRun, FractionRun, ExponentRun;
      var whole := TakeInteger();
      if whole.Err? {
        return Err(whole.error);
      }
      assert Rest() == old(Rest())[whole.value..];
      var fraction := TakeFraction();
      if fraction.Err? {
        return Err(fraction.error);
      }
      assert Rest() == old(Rest())[whole.value..][fraction.value..];
      var exponent := TakeExponent();
      if exponent.Err? {
        return Err(exponent.error);
      }
      return Ok(Shape(whole.value, fraction.value, exponent.value));
    }

    /** The value of the token from `start` to the position. */
    method TokenValue(start: nat, sign: nat, shape: Shape) returns (result: Result<Value, JsonFault>)
      requires Valid() && shape.whole > 0 && position == start + sign + shape.Length()
      requires forall i :: 0 <= i < shape.whole ==> IsDigit(text[start..][sign..][i])
      ensures var parsed := NumberFrom(text[start..], sign, shape, strtod);
              && (parsed.Err? ==> result == Err(parsed.error))
              && (parsed.Ok? ==> result == Ok(parsed.value.0) && Rest() == parsed.value.1)
    {
      hide NumberOf;
      ghost var input := text[start..];
      var token := text[start..position];
      var digits := text[start + sign..start + sign + shape.whole];
      assert token == input[..sign + shape.Length()];
      assert digits == input[sign..][..shape.whole];
      assert Rest() == input[sign + shape.Length()..];
      result := NumberOf(token, digits, sign == 1, shape.fraction == 0 && shape.exponent == 0, strtod);
    }

    method TakeNumber() returns (result: Result<Value, JsonFault>)
      requires Valid()
      modifies this
      ensures Valid() && position >= old(position)
      ensures var parsed := ParseNumber(old(Rest()), strtod);
              && (parsed.Err? ==> result == Err(parsed.error))
              && (parsed.Ok? ==> result == Ok(parsed.value.0) && Rest() == parsed.value.1)
    {
      hide ShapeOf, NumberFrom;
      var start := position;
      var negative := Consume(MINUS);
      var sign := position - start;
      assert Rest() == old(Rest())[sign..];
      var shape := TakeShape();
      if shape.Err? {
        return Err(shape.error);
      }
      result := TokenValue(start, sign, shape.value);
    }

    method TakeValue() returns (result: Result<Value, JsonFault>)
      requires Valid()
      modifies this
      ensures Valid() && position >= old(position)
      ensures result.Ok? ==> position > old(position)
      ensures var parsed := ParseValue(old(Rest()), strtod);
              && (parsed.Err? ==> result == Err(parsed.error))
              && (parsed.Ok? ==> result == Ok(parsed.value.0) && Rest() == parsed.value.1)
      decreases |text| - position, 0
    {
      hide ParseItems, ParseMembers, ParseChars, ParseNumber, ParseLiteral, Skip;
      if position >= |text| {
        return Err(UnexpectedEnd);
      }
      ghost var rest := Rest();
      var c := text[position];
      assert rest[1..] == text[position + 1..];
      if c == NULL_TEXT[0] {
        result := Expect(NULL_TEXT, Null);
      } else if c == TRUE_TEXT[0] {
        result := Expect(TRUE_TEXT, Bool(true));
      } else if c == FALSE_TEXT[0] {
        result := Expect(FALSE_TEXT, Bool(false));
      } else if c == QUOTE {
        position := position + 1;
        var chars := TakeString();
        result := if chars.Ok? then Ok(Str(chars.value)) else Err(chars.error);
      } else if c == OPEN_ARRAY {
        position := position + 1;
        var items := TakeArray();
        result := if items.Ok? then Ok(Arr(items.value)) else Err(items.error);
      } else if c == OPEN_OBJECT {
        position := position + 1;
        var members := TakeObject();
        result := if members.Ok? then Ok(Obj(members.value)) else Err(members.error);
      } else if c == MINUS || IsDigit(c) {
        result := TakeNumber();
      } else {
        result := Err(UnexpectedToken);
      }
    }

    /** After the opening bracket. */
    method TakeArray() returns (result: Result<seq<Value>, JsonFault>)
      requires Valid() && position > 0
      modifies this
      ensures Valid() && position >= old(position)
      ensures var body := Skip(old(Rest()));
              if StartsWith(body, CLOSE_ARRAY) then result == Ok([]) && Rest() == body[1..]
              else
                var parsed := ParseItems(body, strtod);
                && (parsed.Err? ==> result == Err(parsed.error))
                && (parsed.Ok? ==> result == Ok(parsed.value.0) && Rest() == parsed.value.1)
      decreases |text| - position, 1
    {
      hide ParseValue, Skip;
      SkipWhitespace();
      var empty := Consume(CLOSE_ARRAY);
      if empty {
        return Ok([]);
      }
      var items: seq<Value> := [];
      ghost var whole := ParseItems(Rest(), strtod);
      NothingInFront<Value>();
      while true
        invariant Valid() && position >= old(position)
        invariant var more := ParseItems(Rest(), strtod);
                  && (more.Err? ==> whole == Err(more.error))
                  && (more.Ok? ==> whole == Ok((items + more.value.0, more.value.1)))
        decreases |text| - position
      {
        SkipWhitespace();
        var item := TakeValue();
        if item.Err? {
          return Err(item.error);
        }
        SkipWhitespace();
        ItemInFront(items, item.value);
        assert items + [item.value] + [] == items + [item.value];
        items := items + [item.value];
        var closed := Consume(CLOSE_ARRAY);
        if closed {
          return Ok(items);
        }
        var comma := Consume(COMMA);
        if !comma {
          return Err(ExpectedArrayComma);
        }
      }
    }

    /** One key, colon and value. */
    method TakeMember() returns (result: Result<Member, JsonFault>)
      requires Valid()
      modifies this
      ensures Valid() && position >= old(position)
      ensures result.Ok? ==> position > old(position)
      ensures var parsed := ParseMember(old(Rest()), strtod);
              && (parsed.Err? ==> result == Err(parsed.error))
              && (parsed.Ok? ==> result == Ok(parsed.value.0) && Rest() == parsed.value.1)
      decreases |text| - position, 1
    {
      hide ParseValue, ParseChars, Skip;
      SkipWhitespace();
      var quote := Consume(QUOTE);
      if !quote {
        return Err(ExpectedKey);
      }
      var key := TakeString();
      if key.Err? {
        return Err(key.error);
      }
      SkipWhitespace();
      var colon := Consume(COLON);
      if !colon {
        return Err(ExpectedColon);
      }
      SkipWhitespace();
      var item := TakeValue();
      if item.Err? {
        return Err(item.error);
      }
      return Ok(Member(key.value, item.value));
    }

    /** After the opening brace. */
    method TakeObject() returns (result: Result<seq<Member>, JsonFault>)
      requires Valid() && position > 0
      modifies this
      ensures Valid() && position >= old(position)
      ensures var body := Skip(old(Rest()));
              if StartsWith(body, CLOSE_OBJECT) then result == Ok([]) && Rest() == body[1..]
              else
                var parsed := ParseMembers(body, [], strtod);
                && (parsed.Err? ==> result == Err(parsed.error))
                && (parsed.Ok? ==> result == Ok(parsed.value.0) && Rest() == parsed.value.1)
      decreases |text| - position, 2
    {
      hide ParseMember, Skip, Insert, HasKey;
      SkipWhitespace();
      var empty := Consume(CLOSE_OBJECT);
      if empty {
        return Ok([]);
      }
      var members: seq<Member> := [];
      ghost var whole := ParseMembers(Rest(), [], strtod);
      while true
        invariant Valid() && position >= old(position)
        invariant ParseMembers(Rest(), members, strtod) == whole
        decreases |text| - position
      {
        var m := TakeMember();
        if m.Err? {
          return Err(m.error);
        }
        if HasKey(members, m.value.key) {
          return Err(DuplicateKey);
        }
        members := Insert(members, m.value);
        SkipWhitespace();
        var closed := Consume(CLOSE_OBJECT);
        if closed {
          return Ok(members);
        }
        var comma := Consume(COMMA);
        if !comma {
          return Err(ExpectedObjectComma);
        }
      }
    }
  }

  method ParseText(text: seq<byte>, strtod: Strtod) returns (result: Result<Value, JsonFault>)
    ensures result == Parse(text, strtod)
  {
    hide ParseValue, Skip, IsSpace;
    var parser := new Parser(text, strtod);
    parser.SkipWhitespace();
    var value := parser.TakeValue();
    if value.Err? {
      return Err(value.error);
    }
    parser.SkipWhitespace();
    assert parser.Rest() == [] <==> parser.position == |text|;
    if parser.position != |text| {
      return Err(TrailingContent);
    }
    return Ok(value.value);
  }

  // ---------------------------------------------------------------------
  // The printer. `rest` is what will be written later.
  // ---------------------------------------------------------------------

  method EscapeText(out: seq<byte>, text: seq<byte>, ghost rest: seq<byte>) returns (written: seq<byte>)
    ensures written + rest == out + StringTo(text, rest)
  {
    hide EscapedByte;
    written := out + [QUOTE];
    Assoc(out, [QUOTE], EscapedTo(text, [QUOTE] + rest));
    assert text[0..] == text;
    for i := 0 to |text|
      invariant written + EscapedTo(text[i..], [QUOTE] + rest) == out + StringTo(text, rest)
    {
      assert text[i..][0] == text[i] && text[i..][1..] == text[i + 1..];
      Assoc(written, EscapedByte(text[i]), EscapedTo(text[i + 1..], [QUOTE] + rest));
      written := written + EscapedByte(text[i]);
    }
    assert text[|text|..] == [];
    Assoc(written, [QUOTE], rest);
    written := written + [QUOTE];
  }

  method NewLine(out: seq<byte>, pretty: bool, depth: nat) returns (written: seq<byte>)
    ensures written == out + Break(pretty, depth)
  {
    written := out;
    if pretty {
      written := written + [LINE_FEED];
      written := written + Spaces(2 * depth);
      Assoc(out, [LINE_FEED], Spaces(2 * depth));
    } else {
      assert out + [] == out;
    }
  }

  method Dump(out: seq<byte>, v: Value, pretty: bool, depth: nat, ghost rest: seq<byte>) returns (written: seq<byte>)
    ensures written + rest == out + DumpTo(v, pretty, depth, rest)
    decreases v, 0
  {
    hide ItemsTo, MembersTo, IntText, StringTo;
    match v {
      case Null =>
        Assoc(out, NULL_TEXT, rest);
        written := out + NULL_TEXT;
      case Bool(flag) =>
        Assoc(out, if flag then TRUE_TEXT else FALSE_TEXT, rest);
        written := out + (if flag then TRUE_TEXT else FALSE_TEXT);
      case Int(number) =>
        Assoc(out, IntText(number), rest);
        written := out + IntText(number);
      case Double(shown) =>
        Assoc(out, shown, rest);
        written := out + shown;
      case Str(text) =>
        written := EscapeText(out, text, rest);
      case Arr(items) =>
        written := DumpArray(out, items, pretty, depth, rest);
      case Obj(members) =>
        written := DumpObject(out, members, pretty, depth, rest);
    }
  }

  /** What is still to be written of an array before item `i`, or after the last. */
  ghost function ArrayFrom(items: seq<Value>, i: nat, pretty: bool, depth: nat, rest: seq<byte>): seq<byte>
    requires items != [] && i <= |items|
  {
    if i == 0 then ItemsTo(items, pretty, depth, rest) else AfterItem(items[i - 1..], pretty, depth, rest)
  }

  method DumpArray(out: seq<byte>, items: seq<Value>, pretty: bool, depth: nat, ghost rest: seq<byte>)
    returns (written: seq<byte>)
    ensures written + rest == out + DumpTo(Arr(items), pretty, depth, rest)
    decreases items, 1
  {
    hide DumpTo, Break, AfterItem, ItemsTo;
    written := out + [OPEN_ARRAY];
    if items == [] {
      EmptyArray(out, pretty, depth, rest);
    } else {
      ArrayOpens(out, items, pretty, depth, rest);
      for i := 0 to |items|
        invariant written + ArrayFrom(items, i, pretty, depth, rest) == out + DumpTo(Arr(items), pretty, depth, rest)
      {
        ItemSteps(items, i, pretty, depth, rest);
        ghost var tail := ArrayFrom(items, i + 1, pretty, depth, rest);
        ghost var text := DumpTo(items[i], pretty, depth + 1, tail);
        if i != 0 {
          Assoc(written, [COMMA], Break(pretty, depth + 1) + text);
          written := written + [COMMA];
        }
        Assoc(written, Break(pretty, depth + 1), text);
        written := NewLine(written, pretty, depth + 1);
        written := Dump(written, items[i], pretty, depth + 1, tail);
      }
      ArrayCloses(items, pretty, depth, rest);
      Assoc(written, Break(pretty, depth), [CLOSE_ARRAY] + rest);
      written := NewLine(written, pretty, depth);
    }
    Assoc(written, [CLOSE_ARRAY], rest);
    written := written + [CLOSE_ARRAY];
  }

  lemma EmptyArray(out: seq<byte>, pretty: bool, depth: nat, rest: seq<byte>)
    ensures out + [OPEN_ARRAY] + ([CLOSE_ARRAY] + rest) == out + DumpTo(Arr([]), pretty, depth, rest)
  {
    Assoc(out, [OPEN_ARRAY], [CLOSE_ARRAY] + rest);
  }

  lemma ArrayOpens(out: seq<byte>, items: seq<Value>, pretty: bool, depth: nat, rest: seq<byte>)
    requires items != []
    ensures out + [OPEN_ARRAY] + ArrayFrom(items, 0, pretty, depth, rest)
         == out + DumpTo(Arr(items), pretty, depth, rest)
  {
    hide ItemsTo;
    Assoc(out, [OPEN_ARRAY], ItemsTo(items, pretty, depth, rest));
  }

  lemma ItemSteps(items: seq<Value>, i: nat, pretty: bool, depth: nat, rest: seq<byte>)
    requires i < |items|
    ensures var text := Break(pretty, depth + 1)
                          + DumpTo(items[i], pretty, depth + 1, ArrayFrom(items, i + 1, pretty, depth, rest));
            ArrayFrom(items, i, pretty, depth, rest) == if i == 0 then text else [COMMA] + text
  {
    hide DumpTo, Break;
    assert items[i..][0] == items[i];
    if i == 0 {
      assert items[0..] == items;
    } else {
      assert items[i - 1..][1..] == items[i..];
      assert AfterItem(items[i - 1..], pretty, depth, rest) == [COMMA] + ItemsTo(items[i..], pretty, depth, rest);
      assert ItemsTo(items[i..], pretty, depth, rest)
          == Break(pretty, depth + 1)
               + DumpTo(items[i], pretty, depth + 1, ArrayFrom(items, i + 1, pretty, depth, rest));
    }
  }

  lemma ArrayCloses(items: seq<Value>, pretty: bool, depth: nat, rest: seq<byte>)
    requires items != []
    ensures ArrayFrom(items, |items|, pretty, depth, rest) == Break(pretty, depth) + ([CLOSE_ARRAY] + rest)
  {
    hide Break;
  }

  ghost function ObjectFrom(members: seq<Member>, i: nat, pretty: bool, depth: nat, rest: seq<byte>): seq<byte>
    requires members != [] && i <= |members|
  {
    if i == 0 then MembersTo(members, pretty, depth, rest) else AfterMember(members[i - 1..], pretty, depth, rest)
  }

  method DumpObject(out: seq<byte>, members: seq<Member>, pretty: bool, depth: nat, ghost rest: seq<byte>)
    returns (written: seq<byte>)
    ensures written + rest == out + DumpTo(Obj(members), pretty, depth, rest)
    decreases members, 1
  {
    hide DumpTo, Break, AfterMember, MembersTo, StringTo, Separator;
    written := out + [OPEN_OBJECT];
    if members == [] {
      EmptyObject(out, pretty, depth, rest);
    } else {
      ObjectOpens(out, members, pretty, depth, rest);
      for i := 0 to |members|
        invariant written + ObjectFrom(members, i, pretty, depth, rest)
               == out + DumpTo(Obj(members), pretty, depth, rest)
      {
        MemberSteps(members, i, pretty, depth, rest);
        ghost var tail := ObjectFrom(members, i + 1, pretty, depth, rest);
        ghost var item := DumpTo(members[i].value, pretty, depth + 1, tail);
        ghost var text := StringTo(members[i].key, Separator(pretty) + item);
        if i != 0 {
          Assoc(written, [COMMA], Break(pretty, depth + 1) + text);
          written := written + [COMMA];
        }
        Assoc(written, Break(pretty, depth + 1), text);
        written := NewLine(written, pretty, depth + 1);
        written := EscapeText(written, members[i].key, Separator(pretty) + item);
        Assoc(written, Separator(pretty), item);
        written := written + Separator(pretty);
        written := Dump(written, members[i].value, pretty, depth + 1, tail);
      }
      ObjectCloses(members, pretty, depth, rest);
      Assoc(written, Break(pretty, depth), [CLOSE_OBJECT] + rest);
      written := NewLine(written, pretty, depth);
    }
    Assoc(written, [CLOSE_OBJECT], rest);
    written := written + [CLOSE_OBJECT];
  }

  lemma EmptyObject(out: seq<byte>, pretty: bool, depth: nat, rest: seq<byte>)
    ensures out + [OPEN_OBJECT] + ([CLOSE_OBJECT] + rest) == out + DumpTo(Obj([]), pretty, depth, rest)
  {
    Assoc(out, [OPEN_OBJECT], [CLOSE_OBJECT] + rest);
  }

  lemma ObjectOpens(out: seq<byte>, members: seq<Member>, pretty: bool, depth: nat, rest: seq<byte>)
    requires members != []
    ensures out + [OPEN_OBJECT] + ObjectFrom(members, 0, pretty, depth, rest)
         == out + DumpTo(Obj(members), pretty, depth, rest)
  {
    hide MembersTo;
    Assoc(out, [OPEN_OBJECT], MembersTo(members, pretty, depth, rest));
  }

  lemma MemberSteps(members: seq<Member>, i: nat, pretty: bool, depth: nat, rest: seq<byte>)
    requires i < |members|
    ensures var tail := ObjectFrom(members, i + 1, pretty, depth, rest);
            var item := DumpTo(members[i].value, pretty, depth + 1, tail);
            var text := Break(pretty, depth + 1) + StringTo(members[i].key, Separator(pretty) + item);
            ObjectFrom(members, i, pretty, depth, rest) == if i == 0 then text else [COMMA] + text
  {
    hide DumpTo, Break, StringTo, Separator;
    assert members[i..][0] == members[i];
    if i == 0 {
      assert members[0..] == members;
    } else {
      assert members[i - 1..][1..] == members[i..];
      assert AfterMember(members[i - 1..], pretty, depth, rest)
          == [COMMA] + MembersTo(members[i..], pretty, depth, rest);
      var tail := ObjectFrom(members, i + 1, pretty, depth, rest);
      assert MembersTo(members[i..], pretty, depth, rest)
          == Break(pretty, depth + 1)
             + StringTo(members[i].key, Separator(pretty) + DumpTo(members[i].value, pretty, depth + 1, tail));
    }
  }

  lemma ObjectCloses(members: seq<Member>, pretty: bool, depth: nat, rest: seq<byte>)
    requires members != []
    ensures ObjectFrom(members, |members|, pretty, depth, rest) == Break(pretty, depth) + ([CLOSE_OBJECT] + rest)
  {
    hide Break;
  }

  method DumpText(v: Value, pretty: bool) returns (text: seq<byte>)
    ensures text == DumpCanonical(v, pretty)
  {
    hide DumpTo;
    text := Dump([], v, pretty, 0, if pretty then [LINE_FEED] else []);
    assert [] + DumpCanonical(v, pretty) == DumpCanonical(v, pretty);
    if pretty {
      text := text + [LINE_FEED];
    } else {
      assert text + [] == text;
    }
  }
}
