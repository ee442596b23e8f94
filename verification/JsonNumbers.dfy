/** Numbers as RFC 8259, section 6 writes them, and what the parser makes of each: an
    integer, a double, or a refusal. */
module JsonNumbers {
  import opened Machine
  import opened Json
  import opened JsonRoundTrip

  datatype Exponent = Exponent(marker: byte, sign: seq<byte>, digits: seq<byte>)

  /** The parts of a number: minus, int, frac and exp of the grammar. */
  datatype Number = Number(negative: bool, whole: seq<byte>, fraction: Option<seq<byte>>, exponent: Option<Exponent>)

  predicate Digits(text: seq<byte>) {
    text != [] && forall i :: 0 <= i < |text| ==> IsDigit(text[i])
  }

  predicate GoodExponent(e: Exponent) {
    && (e.marker == 0x65 || e.marker == 0x45)
    && (e.sign == [] || e.sign == [PLUS] || e.sign == [MINUS])
    && Digits(e.digits)
  }

  predicate WellFormed(n: Number) {
    && Digits(n.whole) && (n.whole[0] == ZERO ==> |n.whole| == 1)
    && (n.fraction.Some? ==> Digits(n.fraction.value))
    && (n.exponent.Some? ==> GoodExponent(n.exponent.value))
  }

  function FractionText(fraction: Option<seq<byte>>): seq<byte> {
    match fraction
    case None => []
    case Some(digits) => [DOT] + digits
  }

  function ExponentText(exponent: Option<Exponent>): seq<byte> {
    match exponent
    case None => []
    case Some(e) => [e.marker] + e.sign + e.digits
  }

  function SignText(negative: bool): seq<byte> {
    if negative then [MINUS] else []
  }

  function Text(n: Number): seq<byte> {
    SignText(n.negative) + n.whole + FractionText(n.fraction) + ExponentText(n.exponent)
  }

  predicate StartsDigit(rest: seq<byte>) {
    rest != [] && IsDigit(rest[0])
  }

  predicate StartsExponent(rest: seq<byte>) {
    StartsWith(rest, 0x65) || StartsWith(rest, 0x45)
  }

  /** `rest` does not go on with the number: its last part ends where `rest` begins. */
  predicate Stops(n: Number, rest: seq<byte>) {
    && (StartsDigit(rest) ==> n.whole == [ZERO] && n.fraction.None? && n.exponent.None?)
    && (StartsExponent(rest) ==> n.exponent.Some?)
    && (StartsWith(rest, DOT) ==> n.fraction.Some? || n.exponent.Some?)
  }

  // ---------------------------------------------------------------------
  // Measuring the parts
  // ---------------------------------------------------------------------

  lemma WholeIs(whole: seq<byte>, rest: seq<byte>)
    requires Digits(whole) && (whole[0] == ZERO ==> |whole| == 1)
    requires StartsDigit(rest) ==> whole == [ZERO]
    ensures IntegerRun(whole + rest) == Ok(|whole|)
  {
    assert (whole + rest)[0] == whole[0] && IsDigit(whole[0]);
    if whole[0] != ZERO {
      RunOfDigits(whole, rest);
    }
  }

  lemma FractionIs(fraction: Option<seq<byte>>, rest: seq<byte>)
    requires fraction.Some? ==> Digits(fraction.value) && !StartsDigit(rest)
    requires fraction.None? ==> !StartsWith(rest, DOT)
    ensures FractionRun(FractionText(fraction) + rest) == Ok(|FractionText(fraction)|)
  {
    if fraction.Some? {
      assert (FractionText(fraction) + rest)[1..] == fraction.value + rest;
      RunOfDigits(fraction.value, rest);
    } else {
      assert FractionText(fraction) + rest == rest;
    }
  }

  lemma SignedRun(e: Exponent, rest: seq<byte>)
    requires GoodExponent(e) && !StartsDigit(rest)
    ensures var tail := e.sign + e.digits + rest;
            && (StartsWith(tail, PLUS) || StartsWith(tail, MINUS) <==> |e.sign| == 1)
            && DigitRun(tail[|e.sign|..]) == |e.digits|
  {
    var tail := e.sign + e.digits + rest;
    assert tail[|e.sign|..] == e.digits + rest;
    RunOfDigits(e.digits, rest);
    assert IsDigit(e.digits[0]) && tail[0] == (e.sign + e.digits)[0];
  }

  lemma ExponentIs(exponent: Option<Exponent>, rest: seq<byte>)
    requires exponent.Some? ==> GoodExponent(exponent.value) && !StartsDigit(rest)
    requires exponent.None? ==> !StartsExponent(rest)
    ensures ExponentRun(ExponentText(exponent) + rest) == Ok(|ExponentText(exponent)|)
  {
    if exponent.Some? {
      var e := exponent.value;
      assert |e.digits| > 0 && |e.sign| <= 1 && (e.marker == 0x65 || e.marker == 0x45);
      SignedRun(e, rest);
      hide Digits, IsDigit, DigitRun, GoodExponent;
      var text := ExponentText(exponent) + rest;
      var tail := e.sign + e.digits + rest;
      assert text[1..] == tail;
      assert text[1 + |e.sign|..] == tail[|e.sign|..];
    } else {
      assert ExponentText(exponent) + rest == rest;
    }
  }

  lemma ShapeIs(n: Number, rest: seq<byte>)
    requires WellFormed(n) && Stops(n, rest)
    ensures ShapeOf(n.whole + (FractionText(n.fraction) + (ExponentText(n.exponent) + rest)))
         == Ok(Shape(|n.whole|, |FractionText(n.fraction)|, |ExponentText(n.exponent)|))
  {
    hide IntegerRun, FractionRun, ExponentRun;
    var end := ExponentText(n.exponent) + rest;
    var middle := FractionText(n.fraction) + end;
    assert end == rest || (n.exponent.Some? && end[0] == n.exponent.value.marker);
    assert middle == end || middle[0] == DOT;
    WholeIs(n.whole, middle);
    FractionIs(n.fraction, end);
    ExponentIs(n.exponent, rest);
    assert (n.whole + middle)[|n.whole|..] == middle && middle[|FractionText(n.fraction)|..] == end;
  }

  // ---------------------------------------------------------------------
  // What a number is read as
  // ---------------------------------------------------------------------

  /** The integer the whole part writes. */
  function Signed(n: Number): int
    requires WellFormed(n)
  {
    if n.negative then 0 - DigitsValue(n.whole) else DigitsValue(n.whole)
  }

  lemma FourInRow(s: seq<byte>, w: seq<byte>, f: seq<byte>, e: seq<byte>, rest: seq<byte>)
    ensures var input := s + w + f + e + rest;
            && input[|s|..] == w + (f + (e + rest))
            && input[|s|..][..|w|] == w
            && input[..|s| + (|w| + |f| + |e|)] == s + w + f + e
            && input[|s| + (|w| + |f| + |e|)..] == rest
  {
    var input := s + w + f + e + rest;
    assert input == s + (w + (f + (e + rest)));
    assert input == (s + w + f + e) + rest;
  }

  lemma SignSeen(n: Number, rest: seq<byte>)
    requires WellFormed(n)
    ensures StartsWith(Text(n) + rest, MINUS) == n.negative
    ensures |SignText(n.negative)| == (if n.negative then 1 else 0)
  {
    hide FractionText, ExponentText;
    assert IsDigit(n.whole[0]);
    assert (Text(n) + rest)[0] == (SignText(n.negative) + n.whole)[0];
  }

  /** A number is an Int exactly when it has neither fraction nor exponent and its value is an
      int64; any other is the double that strtod finds, and refused if that is not finite. */
  lemma NumberIsRead(n: Number, rest: seq<byte>, strtod: Strtod)
    requires WellFormed(n) && Stops(n, rest)
    ensures ParseNumber(Text(n) + rest, strtod)
         == (if n.fraction.None? && n.exponent.None? && FitsInt64(Signed(n)) then Ok((Int(Signed(n)), rest))
             else if strtod(Text(n)).None? then Err(NotFinite)
             else Ok((Double(strtod(Text(n)).value), rest)))
  {
    hide ShapeOf, Stops, DigitsValue, IsDigit, StartsWith;
    ShapeIs(n, rest);
    SignSeen(n, rest);
    FourInRow(SignText(n.negative), n.whole, FractionText(n.fraction), ExponentText(n.exponent), rest);
    assert |FractionText(n.fraction)| == 0 <==> n.fraction.None?;
    assert |ExponentText(n.exponent)| == 0 <==> n.exponent.None?;
  }

  // ---------------------------------------------------------------------
  // Nothing else is read
  // ---------------------------------------------------------------------

  ghost predicate WholeTaken(body: seq<byte>, whole: seq<byte>, rest: seq<byte>) {
    && body == whole + rest
    && Digits(whole) && (whole[0] == ZERO ==> |whole| == 1)
    && (StartsDigit(rest) ==> whole == [ZERO])
  }

  lemma TakeWhole(body: seq<byte>)
    requires IntegerRun(body).Ok?
    ensures WholeTaken(body, body[..IntegerRun(body).value], body[IntegerRun(body).value..])
  {
    var length := IntegerRun(body).value;
    var whole := body[..length];
    assert forall i :: 0 <= i < length ==> whole[i] == body[i];
    if body[0] == ZERO {
      assert whole == [ZERO];
    }
  }

  ghost predicate FractionTaken(body: seq<byte>, fraction: Option<seq<byte>>, rest: seq<byte>) {
    && body == FractionText(fraction) + rest
    && (fraction.Some? ==> Digits(fraction.value) && !StartsDigit(rest))
    && (fraction.None? ==> rest == body && !StartsWith(body, DOT))
  }

  lemma TakeFraction(body: seq<byte>) returns (fraction: Option<seq<byte>>)
    requires FractionRun(body).Ok?
    ensures FractionTaken(body, fraction, body[FractionRun(body).value..])
  {
    var length := FractionRun(body).value;
    if length == 0 {
      assert FractionText(None) + body[0..] == body;
      return None;
    }
    var digits := body[1..][..DigitRun(body[1..])];
    assert body == [DOT] + digits + body[length..];
    assert body[length..] == body[1..][DigitRun(body[1..])..];
    return Some(digits);
  }

  ghost predicate ExponentTaken(body: seq<byte>, exponent: Option<Exponent>, rest: seq<byte>) {
    && body == ExponentText(exponent) + rest
    && (exponent.Some? ==> GoodExponent(exponent.value) && !StartsDigit(rest))
    && (exponent.None? ==> rest == body && !StartsExponent(body))
  }

  lemma TakeExponent(body: seq<byte>) returns (exponent: Option<Exponent>)
    requires ExponentRun(body).Ok?
    ensures ExponentTaken(body, exponent, body[ExponentRun(body).value..])
  {
    var length := ExponentRun(body).value;
    if length == 0 {
      assert ExponentText(None) + body[0..] == body;
      return None;
    }
    var sign := if StartsWith(body[1..], PLUS) || StartsWith(body[1..], MINUS) then 1 else 0;
    var tail := body[1 + sign..];
    var run := DigitRun(tail);
    assert length == 1 + sign + run;
    assert body[length..] == tail[run..];
    var digits := tail[..run];
    assert forall i :: 0 <= i < run ==> digits[i] == tail[i];
    FourParts(body, 1, sign, run);
    return Some(Exponent(body[0], body[1..1 + sign], digits));
  }

  lemma FourParts(body: seq<byte>, a: nat, b: nat, c: nat)
    requires a == 1 && a + b + c <= |body|
    ensures body == [body[0]] + body[1..1 + b] + body[1 + b..][..c] + body[1 + b + c..]
  {
    assert body[1 + b..] == body[1 + b..][..c] + body[1 + b + c..];
  }

  lemma SplitInput(input: seq<byte>)
    ensures var negative := StartsWith(input, MINUS);
            input == SignText(negative) + input[if negative then 1 else 0..]
  {
  }

  lemma ShapeWasTaken(input: seq<byte>, strtod: Strtod)
    requires ParseNumber(input, strtod).Ok? || ParseNumber(input, strtod) == Err(NotFinite)
    ensures ShapeOf(input[if StartsWith(input, MINUS) then 1 else 0..]).Ok?
  {
    hide NumberFrom, DigitRun;
  }

  /** Only numbers of the grammar are read: whatever is taken off the input is the text of
      one, and what follows does not go on with it. */
  lemma OnlyNumbersAreRead(input: seq<byte>, strtod: Strtod) returns (n: Number, rest: seq<byte>)
    requires ParseNumber(input, strtod).Ok? || ParseNumber(input, strtod) == Err(NotFinite)
    ensures WellFormed(n) && Stops(n, rest) && input == Text(n) + rest
  {
    hide NumberFrom, IntegerRun, FractionRun, ExponentRun, SignText, Text, WellFormed, Stops;
    hide WholeTaken, FractionTaken, ExponentTaken, ExponentText, FractionText, ParseNumber, StartsWith;
    SplitInput(input);
    ShapeWasTaken(input, strtod);
    var negative := StartsWith(input, MINUS);
    var body := input[if negative then 1 else 0..];
    var whole := IntegerRun(body).value;
    TakeWhole(body);
    var middle := body[whole..];
    var fraction := TakeFraction(middle);
    var end := middle[FractionRun(middle).value..];
    var exponent := TakeExponent(end);
    rest := end[ExponentRun(end).value..];
    n := Number(negative, body[..whole], fraction, exponent);
    Joined(n, body, middle, end, rest);
  }

  lemma Joined(n: Number, body: seq<byte>, middle: seq<byte>, end: seq<byte>, rest: seq<byte>)
    requires WholeTaken(body, n.whole, middle)
    requires FractionTaken(middle, n.fraction, end)
    requires ExponentTaken(end, n.exponent, rest)
    ensures WellFormed(n) && Stops(n, rest) && SignText(n.negative) + body == Text(n) + rest
  {
    hide Digits, GoodExponent, IsDigit, StartsDigit, StartsExponent, StartsWith, SignText, FractionText, ExponentText;
    Regrouped(SignText(n.negative), n.whole, FractionText(n.fraction), ExponentText(n.exponent), rest);
  }

  lemma Regrouped(s: seq<byte>, w: seq<byte>, f: seq<byte>, e: seq<byte>, rest: seq<byte>)
    ensures s + (w + (f + (e + rest))) == s + w + f + e + rest
  {
  }
}
