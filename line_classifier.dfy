/** Per-line conversion: the first-match dispatch of `ConverterProgram.ConvertLine`
    over a date/time rule, a floating-point rule and a char-index instruction. */
module LineClassifier {
  import opened Results
  import opened NetText

  /** The culture-dependent parsers the program calls on a line. `tryDateTime`
      and `tryDouble` say whether `DateTime.TryParse` / `double.TryParse`
      accept the line under the source culture; `dateTimeText` and
      `doubleText` are the invariant-culture `ToString` of the parsed value.
      They are parameters: their internals are outside this model. */
  datatype Parsers = Parsers(
    tryDateTime: string -> bool,
    dateTimeText: string -> string,
    tryDouble: string -> bool,
    doubleText: string -> string)

  /** `ConvertAsCharIndexInstruction`: for `"<i> <word> ..."`, the character
      `word[i]` as a one-character string. `None` stands for the null return
      (fewer than two tokens, or `i` outside the word); a `Failure` is the
      exception `int.Parse` throws on the index token. */
  function ConvertAsCharIndexInstruction(s: string): (r: Result<Option<string>, Exc>)
    ensures NoWhiteSpace(s) ==> r == Success(None)
    ensures r.Failure? ==> !NoWhiteSpace(s) && ParseInt32(Split(s)[0]).Failure?
    ensures |Split(s)| >= 2 && ParseInt32(Split(s)[0]).Failure? ==> r == Failure(ParseInt32(Split(s)[0]).error)
    ensures |Split(s)| >= 2 && ParseInt32(Split(s)[0]).Success? ==>
      var i, word := ParseInt32(Split(s)[0]).value, Split(s)[1];
      r == if 0 <= i < |word| then Success(Some([word[i]])) else Success(None)
    ensures r.Success? && r.value.Some? ==>
      |r.value.value| == 1 && !IsWhiteSpace(r.value.value[0]) && r.value.value[0] in s
  {
    SplitSingle(s);
    SplitJoin(s);
    var parts := Split(s);
    if |parts| < 2 then Success(None)
    else
      match ParseInt32(parts[0])
      case Failure(e) => Failure(e)
      case Success(charIndex) =>
        if charIndex < 0 || charIndex >= |parts[1]| then Success(None)
        else
          var text := parts[1];
          CharOfSecondToken(parts, Separators(s), charIndex);
          Success(Some([text[charIndex]]))
  }

  /** A character of the second token is a character of the joined line. */
  lemma CharOfSecondToken(parts: seq<string>, seps: string, k: int)
    requires |parts| == |seps| + 1 && |parts| >= 2
    requires 0 <= k < |parts[1]|
    ensures parts[1][k] in Join(parts, seps)
  {
    var tail := Join(parts[1..], seps[1..]);
    assert Join(parts, seps) == parts[0] + [seps[0]] + tail;
    if seps[1..] == [] {
      assert tail == parts[1];
    } else {
      assert tail == parts[1] + [seps[1]] + Join(parts[2..], seps[2..]);
    }
    assert parts[1][k] == tail[k];
    assert Join(parts, seps)[|parts[0]| + 1 + k] == tail[k];
  }

  /** The instruction the rule is written for: the decimal index, one white-space
      character, a word, and anything after further white space. It yields
      `word[i]` when `i` lies inside the word and null otherwise. */
  lemma CharIndexInstruction(i: nat, c: char, word: string, rest: string)
    requires i <= Int32Max
    requires IsWhiteSpace(c) && NoWhiteSpace(word)
    requires rest == [] || IsWhiteSpace(rest[0])
    ensures ConvertAsCharIndexInstruction(NatToString(i) + [c] + word + rest)
      == if i < |word| then Success(Some([word[i]])) else Success(None)
  {
    var token := NatToString(i);
    var s := token + [c] + word + rest;
    assert s == token + [c] + (word + rest);
    SplitAfterToken(token, c, word + rest);
    SecondToken(word, rest);
    ParseNatToString(i);
    var parts := Split(s);
    assert |parts| >= 2 && parts[0] == token && parts[1] == word;
    assert ParseInt32(parts[0]) == Success(i as int);
  }


  /** A negative index never selects a character. */
  lemma NegativeCharIndex(n: nat, c: char, word: string)
    requires 0 < n <= -Int32Min
    requires IsWhiteSpace(c)
    ensures ConvertAsCharIndexInstruction("-" + NatToString(n) + [c] + word) == Success(None)
  {
    var s := "-" + NatToString(n) + [c] + word;
    assert s == ("-" + NatToString(n)) + [c] + word;
    assert NoWhiteSpace("-" + NatToString(n));
    SplitAfterToken("-" + NatToString(n), c, word);
    ParseNegatedNatToString(n);
  }

  /** An index token that does not fit in 32 bits makes `int.Parse` throw. */
  lemma OverflowingCharIndex(n: nat, c: char, word: string)
    requires n > Int32Max
    requires IsWhiteSpace(c)
    ensures ConvertAsCharIndexInstruction(NatToString(n) + [c] + word) == Failure(OverflowError)
  {
    SplitAfterToken(NatToString(n), c, word);
    ParseTooLarge(n);
  }

  /** An index token that is not a signed decimal number makes `int.Parse`
      throw `FormatException`, whatever follows it. */
  lemma NonNumericCharIndex(token: string, c: char, rest: string)
    requires NoWhiteSpace(token) && IsWhiteSpace(c)
    requires Unsigned(token) == [] || !AllDigits(Unsigned(token))
    ensures ConvertAsCharIndexInstruction(token + [c] + rest) == Failure(FormatError)
  {
    SplitAfterToken(token, c, rest);
  }

  /** A token free of white space, followed by nothing or by white space, is
      the first token of what it starts. */
  lemma SecondToken(word: string, rest: string)
    requires NoWhiteSpace(word)
    requires rest == [] || IsWhiteSpace(rest[0])
    ensures Split(word + rest)[0] == word
  {
    if rest == [] {
      assert word + rest == word;
      SplitSingle(word);
    } else {
      var c, tail := rest[0], rest[1..];
      assert rest == [c] + tail;
      assert word + rest == word + [c] + tail;
      SplitAfterToken(word, c, tail);
    }
  }

  /** `ConvertLine`: the date/time rule first, then the floating-point rule,
      then the char-index instruction; a null from the last rule throws
      `FormatException`. */
  function ConvertLine(p: Parsers, s: string): (r: Result<string, Exc>)
    ensures p.tryDateTime(s) ==> r == Success(p.dateTimeText(s))
    ensures !p.tryDateTime(s) && p.tryDouble(s) ==> r == Success(p.doubleText(s))
    ensures r.Failure? ==> !p.tryDateTime(s) && !p.tryDouble(s) && (r.error == OverflowError ==> !NoWhiteSpace(s))
    ensures !p.tryDateTime(s) && !p.tryDouble(s) && NoWhiteSpace(s) ==> r == Failure(FormatError)
    ensures !p.tryDateTime(s) && !p.tryDouble(s) ==>
      match ConvertAsCharIndexInstruction(s)
      case Success(Some(text)) => r == Success(text)
      case Success(None) => r == Failure(FormatError)
      case Failure(e) => r == Failure(e)
    ensures r.Success? && !p.tryDateTime(s) && !p.tryDouble(s) ==> |r.value| == 1 && r.value[0] in s
  {
    if p.tryDateTime(s) then Success(p.dateTimeText(s))
    else if p.tryDouble(s) then Success(p.doubleText(s))
    else
      match ConvertAsCharIndexInstruction(s)
      case Failure(e) => Failure(e)
      case Success(None) => Failure(FormatError)
      case Success(Some(text)) => Success(text)
  }

  /** A well-formed instruction that neither parser accepts converts to the
      selected character; out of range it is a malformed line. */
  lemma ConvertInstructionLine(p: Parsers, i: nat, word: string)
    requires i <= Int32Max && NoWhiteSpace(word)
    requires var s := NatToString(i) + " " + word; !p.tryDateTime(s) && !p.tryDouble(s)
    ensures ConvertLine(p, NatToString(i) + " " + word)
      == if i < |word| then Success([word[i]]) else Failure(FormatError)
  {
    assert NatToString(i) + " " + word == NatToString(i) + [' '] + word + [];
    CharIndexInstruction(i, ' ', word, []);
  }
}
