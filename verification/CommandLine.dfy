/** The argument string handed to the capture helper process
    (src/acquisition/CaptureHelperClient.cpp), and the rule by which the Microsoft C runtime
    and CommandLineToArgvW split such a string into arguments. */
module CommandLine {
  import opened Machine

  type Text = seq<uint16>

  const BACKSLASH: uint16 := 0x5c
  const QUOTE: uint16 := 0x22
  const SPACE: uint16 := 0x20
  const TAB: uint16 := 0x09

  function Slashes(n: nat): (s: Text)
    ensures |s| == n
  {
    seq(n, _ => BACKSLASH)
  }

  // ---------------------------------------------------------------------
  // Quoting
  // ---------------------------------------------------------------------

  predicate ForcesQuotes(c: uint16) {
    c == SPACE || c == TAB || c == 0x0a || c == 0x0b || c == QUOTE
  }

  predicate NeedsQuotes(value: Text) {
    value == [] || exists i :: 0 <= i < |value| && ForcesQuotes(value[i])
  }

  /** The quoted text of what is left of an argument, with `slashes` backslashes pending. */
  function QuotedFrom(value: Text, slashes: nat): Text {
    if value == [] then Slashes(2 * slashes) + [QUOTE]
    else if value[0] == BACKSLASH then QuotedFrom(value[1..], slashes + 1)
    else if value[0] == QUOTE then Slashes(2 * slashes + 1) + [QUOTE] + QuotedFrom(value[1..], 0)
    else Slashes(slashes) + [value[0]] + QuotedFrom(value[1..], 0)
  }

  function Quote(value: Text): (quoted: Text)
    ensures quoted != []
  {
    if NeedsQuotes(value) then [QUOTE] + QuotedFrom(value, 0) else value
  }

  function Serialize(arguments: seq<Text>): Text {
    if arguments == [] then []
    else if |arguments| == 1 then Quote(arguments[0])
    else Quote(arguments[0]) + ([SPACE] + Serialize(arguments[1..]))
  }

  method QuoteCaptureHelperArgument(value: Text) returns (result: Text)
    ensures result == Quote(value)
  {
    if !NeedsQuotes(value) {
      return value;
    }
    result := [QUOTE];
    var backslashes := 0;
    assert value[0..] == value;
    for i := 0 to |value|
      invariant result + QuotedFrom(value[i..], backslashes) == Quote(value)
    {
      var character := value[i];
      assert value[i..][0] == character && value[i..][1..] == value[i + 1..];
      if character == BACKSLASH {
        backslashes := backslashes + 1;
      } else {
        ghost var others := QuotedFrom(value[i + 1..], 0);
        if character == QUOTE {
          Assoc(result, Slashes(2 * backslashes + 1), [QUOTE]);
          Assoc(result, Slashes(2 * backslashes + 1) + [QUOTE], others);
          result := result + Slashes(2 * backslashes + 1);
          result := result + [QUOTE];
        } else {
          Assoc(result, Slashes(backslashes), [character]);
          Assoc(result, Slashes(backslashes) + [character], others);
          result := result + Slashes(backslashes);
          result := result + [character];
        }
        backslashes := 0;
      }
    }
    assert value[|value|..] == [];
    Assoc(result, Slashes(2 * backslashes), [QUOTE]);
    Assoc(result, Slashes(2 * backslashes) + [QUOTE], []);
    assert QuotedFrom([], backslashes) + [] == QuotedFrom([], backslashes);
    result := result + Slashes(2 * backslashes);
    result := result + [QUOTE];
    assert result + [] == result;
  }

  method SerializeCaptureHelperArguments(arguments: seq<Text>) returns (result: Text)
    ensures result == Serialize(arguments)
  {
    hide Quote;
    result := [];
    assert arguments[..0] == [];
    for i := 0 to |arguments|
      invariant result == Serialize(arguments[..i])
      invariant i > 0 ==> result != []
    {
      assert arguments[..i + 1] == arguments[..i] + [arguments[i]];
      SerializeGrows(arguments[..i], arguments[i]);
      if result != [] {
        result := result + [SPACE];
      }
      var quoted := QuoteCaptureHelperArgument(arguments[i]);
      result := result + quoted;
    }
    assert arguments[..|arguments|] == arguments;
  }

  lemma {:induction false} SerializeGrows(arguments: seq<Text>, last: Text)
    ensures Serialize(arguments + [last])
         == if arguments == [] then Quote(last) else Serialize(arguments) + [SPACE] + Quote(last)
    ensures arguments == [] ==> [] + Quote(last) == Quote(last)
  {
    hide Quote;
    if |arguments| == 1 {
      assert (arguments + [last])[1..] == [last];
    } else if |arguments| > 1 {
      assert (arguments + [last])[1..] == arguments[1..] + [last];
      SerializeGrows(arguments[1..], last);
      var others := Serialize(arguments[1..]);
      assert Quote(arguments[0]) + ([SPACE] + (others + [SPACE] + Quote(last)))
          == Quote(arguments[0]) + ([SPACE] + others) + [SPACE] + Quote(last);
    }
  }

  // ---------------------------------------------------------------------
  // The splitting rule
  // ---------------------------------------------------------------------

  predicate Blank(c: uint16) {
    c == SPACE || c == TAB
  }

  /** The argument at the front and the text after it, with `slashes` backslashes just read.
      Backslashes count in pairs before a quote and for themselves elsewhere. Runtimes differ
      in whether two quotes inside quotes stand for one (`doubled`). */
  function TakeArgument(input: Text, quoted: bool, slashes: nat, doubled: bool): (r: (Text, Text))
    ensures |r.1| <= |input| && (input != [] ==> |r.1| < |input|)
    decreases |input|
  {
    if input == [] then (Slashes(slashes), [])
    else
      var c, rest := input[0], input[1..];
      if c == BACKSLASH then TakeArgument(rest, quoted, slashes + 1, doubled)
      else if c == QUOTE then
        if slashes % 2 == 1 then
          var more := TakeArgument(rest, quoted, 0, doubled);
          (Slashes(slashes / 2) + [QUOTE] + more.0, more.1)
        else if quoted && doubled && rest != [] && rest[0] == QUOTE then
          var more := TakeArgument(rest[1..], quoted, 0, doubled);
          (Slashes(slashes / 2) + [QUOTE] + more.0, more.1)
        else
          var more := TakeArgument(rest, !quoted, 0, doubled);
          (Slashes(slashes / 2) + more.0, more.1)
      else if Blank(c) && !quoted then (Slashes(slashes), rest)
      else
        var more := TakeArgument(rest, quoted, 0, doubled);
        (Slashes(slashes) + [c] + more.0, more.1)
  }

  function SkipBlanks(input: Text): (rest: Text)
    ensures |rest| <= |input|
  {
    if input != [] && Blank(input[0]) then SkipBlanks(input[1..]) else input
  }

  function Split(input: Text, doubled: bool): seq<Text>
    decreases |input|
  {
    var start := SkipBlanks(input);
    if start == [] then []
    else
      var first := TakeArgument(start, false, 0, doubled);
      [first.0] + Split(first.1, doubled)
  }

  // ---------------------------------------------------------------------
  // Splitting undoes serializing
  // ---------------------------------------------------------------------

  lemma {:induction false} SlashesCounted(n: nat, rest: Text, quoted: bool, slashes: nat, doubled: bool)
    ensures TakeArgument(Slashes(n) + rest, quoted, slashes, doubled)
         == TakeArgument(rest, quoted, slashes + n, doubled)
  {
    if n == 0 {
      assert Slashes(0) + rest == rest;
    } else {
      var input := Slashes(n) + rest;
      assert input[1..] == Slashes(n - 1) + rest;
      SlashesCounted(n - 1, rest, quoted, slashes + 1, doubled);
    }
  }

  /** What follows an argument: nothing, or a blank and more. */
  predicate Ends(tail: Text) {
    tail != [] ==> Blank(tail[0])
  }

  function After(tail: Text): Text {
    if tail == [] then [] else tail[1..]
  }

  lemma SlashesJoin(a: nat, b: nat)
    ensures Slashes(a) + Slashes(b) == Slashes(a + b)
  {
  }

  lemma {:induction false} QuotedReadsBack(value: Text, slashes: nat, tail: Text, doubled: bool)
    requires Ends(tail)
    ensures TakeArgument(QuotedFrom(value, slashes) + tail, true, 0, doubled) == (Slashes(slashes) + value, After(tail))
    decreases |value|
  {
    hide TakeArgument, Slashes, Ends, After, QuotedFrom;
    if value == [] {
      EmptyQuoted(slashes, tail, doubled);
      assert Slashes(slashes) + [] == Slashes(slashes);
    } else {
      var c, others := value[0], value[1..];
      assert value == [c] + others;
      QuotedReadsBack(others, if c == BACKSLASH then slashes + 1 else 0, tail, doubled);
      if c == BACKSLASH {
        OneMoreSlash(slashes, others);
        QuotedSlash(value, slashes);
      } else {
        CharacterQuoted(value, slashes, tail, doubled);
        NoSlashes(others);
        assert Slashes(slashes) + [c] + others == Slashes(slashes) + value;
      }
    }
  }

  lemma NoSlashes(others: Text)
    ensures Slashes(0) + others == others
  {
  }

  lemma OneMoreSlash(slashes: nat, others: Text)
    ensures Slashes(slashes + 1) + others == Slashes(slashes) + ([BACKSLASH] + others)
  {
    SlashesJoin(slashes, 1);
    assert Slashes(1) == [BACKSLASH];
    assert Slashes(slashes) + ([BACKSLASH] + others) == (Slashes(slashes) + [BACKSLASH]) + others;
  }

  lemma QuotedSlash(value: Text, slashes: nat)
    requires value != [] && value[0] == BACKSLASH
    ensures QuotedFrom(value, slashes) == QuotedFrom(value[1..], slashes + 1)
  {
  }

  lemma EmptyQuoted(slashes: nat, tail: Text, doubled: bool)
    requires Ends(tail)
    ensures TakeArgument(QuotedFrom([], slashes) + tail, true, 0, doubled) == (Slashes(slashes), After(tail))
  {
    hide TakeArgument, Ends, After;
    assert QuotedFrom([], slashes) + tail == Slashes(2 * slashes) + ([QUOTE] + tail);
    SlashesCounted(2 * slashes, [QUOTE] + tail, true, 0, doubled);
    ClosingQuote(tail, slashes, doubled);
  }

  lemma CharacterQuoted(value: Text, slashes: nat, tail: Text, doubled: bool)
    requires value != [] && value[0] != BACKSLASH
    ensures var more := TakeArgument(QuotedFrom(value[1..], 0) + tail, true, 0, doubled);
            TakeArgument(QuotedFrom(value, slashes) + tail, true, 0, doubled)
              == (Slashes(slashes) + [value[0]] + more.0, more.1)
  {
    hide TakeArgument;
    var c := value[0];
    var count := if c == QUOTE then 2 * slashes + 1 else slashes;
    var rest := QuotedFrom(value[1..], 0) + tail;
    assert QuotedFrom(value, slashes) + tail == Slashes(count) + ([c] + rest);
    SlashesCounted(count, [c] + rest, true, 0, doubled);
    CharacterInside(c, rest, slashes, doubled);
  }

  lemma ClosingQuote(tail: Text, slashes: nat, doubled: bool)
    requires Ends(tail)
    ensures TakeArgument([QUOTE] + tail, true, 2 * slashes, doubled) == (Slashes(slashes), After(tail))
  {
    assert ([QUOTE] + tail)[1..] == tail;
    assert TakeArgument(tail, false, 0, doubled) == ([], After(tail));
    assert Slashes(slashes) + [] == Slashes(slashes);
  }

  lemma CharacterInside(c: uint16, rest: Text, slashes: nat, doubled: bool)
    requires c != BACKSLASH
    ensures var count := if c == QUOTE then 2 * slashes + 1 else slashes;
            var more := TakeArgument(rest, true, 0, doubled);
            TakeArgument([c] + rest, true, count, doubled) == (Slashes(slashes) + [c] + more.0, more.1)
  {
    assert ([c] + rest)[1..] == rest;
  }

  lemma PlainCharacter(value: Text, tail: Text, slashes: nat, doubled: bool)
    requires value != [] && !ForcesQuotes(value[0])
    ensures var more := TakeArgument(value[1..] + tail, false, if value[0] == BACKSLASH then slashes + 1 else 0,
                                     doubled);
            TakeArgument(value + tail, false, slashes, doubled)
              == if value[0] == BACKSLASH then more else (Slashes(slashes) + [value[0]] + more.0, more.1)
  {
    assert (value + tail)[1..] == value[1..] + tail;
  }

  lemma PlainEnd(tail: Text, slashes: nat, doubled: bool)
    requires Ends(tail)
    ensures TakeArgument(tail, false, slashes, doubled) == (Slashes(slashes), After(tail))
  {
  }

  lemma {:induction false} PlainReadsBack(value: Text, slashes: nat, tail: Text, doubled: bool)
    requires Ends(tail) && forall i :: 0 <= i < |value| ==> !ForcesQuotes(value[i])
    ensures TakeArgument(value + tail, false, slashes, doubled) == (Slashes(slashes) + value, After(tail))
    decreases |value|
  {
    hide TakeArgument, Slashes, Ends, After, ForcesQuotes;
    if value == [] {
      PlainEnd(tail, slashes, doubled);
      assert value + tail == tail && Slashes(slashes) + [] == Slashes(slashes);
    } else {
      var c, others := value[0], value[1..];
      assert value == [c] + others;
      PlainCharacter(value, tail, slashes, doubled);
      PlainReadsBack(others, if c == BACKSLASH then slashes + 1 else 0, tail, doubled);
      if c == BACKSLASH {
        OneMoreSlash(slashes, others);
      } else {
        NoSlashes(others);
        assert Slashes(slashes) + [c] + others == Slashes(slashes) + value;
      }
    }
  }

  lemma OpeningQuote(rest: Text, doubled: bool)
    ensures TakeArgument([QUOTE] + rest, false, 0, doubled) == TakeArgument(rest, true, 0, doubled)
  {
    assert ([QUOTE] + rest)[1..] == rest;
    var more := TakeArgument(rest, true, 0, doubled);
    assert Slashes(0) + more.0 == more.0;
  }

  /** One quoted argument is taken back whole, wherever it stands. */
  lemma ArgumentReadsBack(value: Text, tail: Text, doubled: bool)
    requires Ends(tail)
    ensures TakeArgument(Quote(value) + tail, false, 0, doubled) == (value, After(tail))
    ensures SkipBlanks(Quote(value) + tail) == Quote(value) + tail
  {
    hide TakeArgument, QuotedFrom, Ends, After, Slashes;
    NoSlashes(value);
    if NeedsQuotes(value) {
      QuotedReadsBack(value, 0, tail, doubled);
      OpeningQuote(QuotedFrom(value, 0) + tail, doubled);
      assert Quote(value) + tail == [QUOTE] + (QuotedFrom(value, 0) + tail);
    } else {
      PlainReadsBack(value, 0, tail, doubled);
      assert !ForcesQuotes(value[0]);
    }
  }

  /** For every list of arguments, with empty ones, quotes and trailing backslashes, and for
      both readings of doubled quotes, splitting gives the list back. */
  lemma {:induction false} SplitReadsBack(arguments: seq<Text>, doubled: bool)
    ensures Split(Serialize(arguments), doubled) == arguments
    decreases |arguments|
  {
    hide Quote, TakeArgument, SkipBlanks;
    if arguments == [] {
      assert SkipBlanks([]) == [];
    } else {
      var others := Serialize(arguments[1..]);
      var tail := if |arguments| == 1 then [] else [SPACE] + others;
      assert Serialize(arguments) == Quote(arguments[0]) + tail;
      ArgumentReadsBack(arguments[0], tail, doubled);
      SplitReadsBack(arguments[1..], doubled);
      assert After(tail) == others;
      assert arguments == [arguments[0]] + arguments[1..];
    }
  }
}
