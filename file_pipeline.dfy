/** Per-file conversion: `PrepareLines` (skip, trim, count, append the count)
    and the map-and-format pipeline inside `ConvertFile`. The file's lines
    arrive as a sequence and the output file is the returned sequence. */
module FilePipeline {
  import opened Results
  import opened NetText
  import opened LineClassifier

  /** The lines `PrepareLines` keeps: every line except the empty string, in order. */
  function NonEmptyLines(lines: seq<string>): (kept: seq<string>)
    ensures |kept| == |lines| - multiset(lines)[""]
    ensures forall l :: l in kept <==> l in lines && l != ""
  {
    if lines == [] then []
    else
      var init, last := lines[..|lines| - 1], lines[|lines| - 1];
      assert lines == init + [last];
      NonEmptyLines(init) + (if last == "" then [] else [last])
  }

  /** Filtering keeps the input order: it distributes over concatenation. */
  lemma {:induction false} NonEmptyLinesAppend(a: seq<string>, b: seq<string>)
    ensures NonEmptyLines(a + b) == NonEmptyLines(a) + NonEmptyLines(b)
  {
    if b != [] {
      var init := b[..|b| - 1];
      assert (a + b)[..|a + b| - 1] == a + init;
      assert (a + b)[|a + b| - 1] == b[|b| - 1];
      NonEmptyLinesAppend(a, init);
    } else {
      assert a + b == a;
    }
  }

  /** Every line trimmed, position by position. */
  function TrimAll(lines: seq<string>): (trimmed: seq<string>)
    ensures |trimmed| == |lines|
    ensures forall k :: 0 <= k < |lines| ==> trimmed[k] == Trim(lines[k])
  {
    if lines == [] then []
    else TrimAll(lines[..|lines| - 1]) + [Trim(lines[|lines| - 1])]
  }

  /** What `PrepareLines` yields: the kept lines trimmed, then the decimal
      count of kept lines. The count is that of the lines different from
      `""`, so a white-space-only line is counted. */
  function PreparedLines(lines: seq<string>): (prepared: seq<string>)
    ensures |prepared| == |lines| - multiset(lines)[""] + 1
    ensures prepared[|prepared| - 1] == NatToString(|lines| - multiset(lines)[""])
    ensures forall k :: 0 <= k < |prepared| - 1 ==> prepared[k] == Trim(NonEmptyLines(lines)[k])
  {
    TrimAll(NonEmptyLines(lines)) + [NatToString(|NonEmptyLines(lines)|)]
  }

  lemma NonEmptyLinesStep(lines: seq<string>, i: nat)
    requires i < |lines|
    ensures NonEmptyLines(lines[..i + 1])
      == NonEmptyLines(lines[..i]) + (if lines[i] == "" then [] else [lines[i]])
  {
    assert lines[..i + 1][..i] == lines[..i];
  }

  lemma TrimAllStep(kept: seq<string>, line: string)
    ensures TrimAll(kept + [line]) == TrimAll(kept) + [Trim(line)]
  {
    assert (kept + [line])[..|kept|] == kept;
  }

  /** One step of the preparation loop: the next line adds its trimmed form
      to the yielded lines unless it is `""`. */
  lemma PrepareStep(lines: seq<string>, i: nat)
    requires i < |lines|
    ensures TrimAll(NonEmptyLines(lines[..i + 1]))
      == TrimAll(NonEmptyLines(lines[..i])) + (if lines[i] == "" then [] else [Trim(lines[i])])
  {
    NonEmptyLinesStep(lines, i);
    if lines[i] != "" {
      TrimAllStep(NonEmptyLines(lines[..i]), lines[i]);
    }
  }

  /** After the whole input, the yielded lines and the count make up `PreparedLines`. */
  lemma PrepareDone(lines: seq<string>, yielded: seq<string>, lineIndex: nat)
    requires yielded == TrimAll(NonEmptyLines(lines[..|lines|]))
    requires lineIndex == |NonEmptyLines(lines[..|lines|])|
    ensures yielded + [NatToString(lineIndex)] == PreparedLines(lines)
  {
    assert lines[..|lines|] == lines;
  }

  /** `PrepareLines`: one pass that skips the empty lines, yields the others
      trimmed while counting them in `lineIndex`, and yields the count last. */
  method PrepareLines(lines: seq<string>) returns (prepared: seq<string>)
    ensures prepared == PreparedLines(lines)
  {
    prepared := [];
    var lineIndex := 0;
    ghost var kept: seq<string> := [];
    for i := 0 to |lines|
      invariant kept == NonEmptyLines(lines[..i])
      invariant lineIndex == |kept|
      invariant prepared == TrimAll(kept)
    {
      var line := lines[i];
      PrepareStep(lines, i);
      NonEmptyLinesStep(lines, i);
      if line != "" {
        prepared := prepared + [Trim(line)];
        lineIndex := lineIndex + 1;
      }
      kept := NonEmptyLines(lines[..i + 1]);
    }
    PrepareDone(lines, prepared, lineIndex);
    prepared := prepared + [NatToString(lineIndex)];
  }

  /** A white-space-only line is not skipped: it is yielded as `""` at the
      position of the lines kept before it, and it adds one to the count. */
  lemma WhiteSpaceLineKept(lines: seq<string>, k: nat)
    requires k < |lines| && lines[k] != "" && AllWhiteSpace(lines[k])
    ensures var j := |NonEmptyLines(lines[..k])|;
      j < |PreparedLines(lines)| - 1 && PreparedLines(lines)[j] == ""
    ensures |NonEmptyLines(lines)| == |NonEmptyLines(lines[..k])| + 1 + |NonEmptyLines(lines[k + 1..])|
  {
    var before, line, after := lines[..k], lines[k], lines[k + 1..];
    assert lines == before + [line] + after;
    NonEmptyLinesAppend(before + [line], after);
    NonEmptyLinesAppend(before, [line]);
    assert [line][..0] == [];
    assert NonEmptyLines([line]) == [line];
    var kept := NonEmptyLines(lines);
    assert kept[|NonEmptyLines(before)|] == line;
  }

  /** One output line: the length of the converted text, a space, then the text. */
  function FormatLine(text: string): (line: string)
    ensures |line| == |NatToString(|text|)| + 1 + |text|
  {
    NatToString(|text|) + " " + text
  }

  /** An output line reads back: the digits before its first space give the
      length of what follows the space, and what follows is the converted text. */
  lemma FormatLineDecodes(text: string)
    ensures var line, d := FormatLine(text), |NatToString(|text|)|;
      && line[d] == ' ' && NoWhiteSpace(line[..d]) && AllDigits(line[..d])
      && line[d + 1..] == text && DigitsValue(line[..d]) == |line[d + 1..]|
  {
    var line, d := FormatLine(text), |NatToString(|text|)|;
    assert line[..d] == NatToString(|text|);
    assert line[d + 1..] == text;
    NatToStringValue(|text|);
  }

  /** Each prepared line converted, then prefixed with its length and a
      space; the sequence is forced by the write, inside the `catch` that
      rethrows every failure as `FormatException`. Either every line converts and the output has one
      formatted line per prepared line in the same order, or the whole
      conversion fails and yields no sequence. */
  function ConvertLines(p: Parsers, prepared: seq<string>): (r: Result<seq<string>, Exc>)
    ensures r.Success? <==> forall k :: 0 <= k < |prepared| ==> ConvertLine(p, prepared[k]).Success?
    ensures r.Success? ==> |r.value| == |prepared|
    ensures r.Success? ==> forall k :: 0 <= k < |prepared| ==>
      r.value[k] == FormatLine(ConvertLine(p, prepared[k]).value)
    ensures r.Failure? ==> r.error == FormatError
  {
    if prepared == [] then Success([])
    else
      match ConvertLine(p, prepared[0])
      case Failure(_) => Failure(FormatError)
      case Success(text) =>
        match ConvertLines(p, prepared[1..])
        case Failure(e) => Failure(e)
        case Success(rest) => Success([FormatLine(text)] + rest)
  }

  /** The core of `ConvertFile` once the file has been found: prepare the
      lines and convert all of them. One output line per kept input line plus
      the trailer, or a `FormatException` with no output when any prepared
      line, the trailer included, fails to convert. */
  function ConvertFile(p: Parsers, lines: seq<string>): (r: Result<seq<string>, Exc>)
    ensures r.Success? ==> |r.value| == |lines| - multiset(lines)[""] + 1
    ensures r.Failure? ==> r.error == FormatError
    ensures r.Success? <==> forall k :: 0 <= k < |PreparedLines(lines)| ==>
      ConvertLine(p, PreparedLines(lines)[k]).Success?
    ensures r.Success? ==> forall k :: 0 <= k < |r.value| ==>
      r.value[k] == FormatLine(ConvertLine(p, PreparedLines(lines)[k]).value)
  {
    ConvertLines(p, PreparedLines(lines))
  }

  // ---- What the output file holds when a line fails ----

  /** What `File.WriteAllLines` leaves in the output file: it opens the file
      first and then pulls the lazy sequence, writing each formatted line as
      it comes, so a failing line leaves the lines before it written. */
  function WrittenLines(p: Parsers, prepared: seq<string>): (written: seq<string>)
    ensures |written| <= |prepared|
    ensures forall k :: 0 <= k < |written| ==>
      ConvertLine(p, prepared[k]).Success? && written[k] == FormatLine(ConvertLine(p, prepared[k]).value)
    ensures |written| < |prepared| ==> ConvertLine(p, prepared[|written|]).Failure?
  {
    if prepared == [] then []
    else
      match ConvertLine(p, prepared[0])
      case Failure(_) => []
      case Success(text) => [FormatLine(text)] + WrittenLines(p, prepared[1..])
  }

  /** The written file agrees with the conversion when it succeeds, and is
      cut short at the first failing line when it fails. */
  lemma WrittenLinesAgree(p: Parsers, prepared: seq<string>)
    ensures ConvertLines(p, prepared).Success? ==> WrittenLines(p, prepared) == ConvertLines(p, prepared).value
    ensures ConvertLines(p, prepared).Failure? <==> |WrittenLines(p, prepared)| < |prepared|
  {
  }


  lemma KeptTwoLines(first: string, second: string)
    requires first != "" && second != ""
    ensures NonEmptyLines([first, second]) == [first, second]
  {
    var lines := [first, second];
    NonEmptyLinesStep(lines, 0);
    NonEmptyLinesStep(lines, 1);
    assert lines[..0] == [] && lines[..1] == [first] && lines[..2] == lines;
  }

  lemma TrimmedTwoLines(first: string, second: string)
    ensures TrimAll([first, second]) == [Trim(first), Trim(second)]
  {
    TrimAllStep([], first);
    TrimAllStep([first], second);
    assert [] + [first] == [first];
    assert [first] + [second] == [first, second];
  }

  lemma PreparedTwoLines(first: string, second: string)
    requires first != "" && second != ""
    ensures PreparedLines([first, second]) == [Trim(first), Trim(second), NatToString(2)]
  {
    KeptTwoLines(first, second);
    TrimmedTwoLines(first, second);
  }

  /** A two-line file whose first line converts and whose second does not:
      the conversion fails, yet the output file holds the first line converted. */
  lemma PartialOutputOnFailure(p: Parsers, first: string, second: string, text: string)
    requires first != "" && second != ""
    requires ConvertLine(p, Trim(first)) == Success(text) && ConvertLine(p, Trim(second)).Failure?
    ensures ConvertFile(p, [first, second]).Failure?
    ensures WrittenLines(p, PreparedLines([first, second])) == [FormatLine(text)]
  {
    PreparedTwoLines(first, second);
    var prepared := [Trim(first), Trim(second), NatToString(2)];
    var tail := prepared[1..];
    assert tail[0] == Trim(second);
    assert WrittenLines(p, tail) == [];
  }

  lemma ExampleTrimmed()
    ensures Trim("0 ab") == "0 ab" && Trim("x") == "x"
  {
    assert SkipWhiteSpace("0 ab", 0) == 0;
    assert BackOverWhiteSpace("0 ab", 0, 4) == 4;
    assert NoWhiteSpace("x");
  }

  lemma ExampleLines(p: Parsers)
    requires !p.tryDateTime("0 ab") && !p.tryDouble("0 ab")
    requires !p.tryDateTime("x") && !p.tryDouble("x")
    ensures ConvertLine(p, "0 ab") == Success("a")
    ensures ConvertLine(p, "x") == Failure(FormatError)
    ensures FormatLine("a") == "1 a"
  {
    assert NoWhiteSpace("ab") && NoWhiteSpace("x");
    assert NatToString(0) + " " + "ab" == "0 ab";
    ConvertInstructionLine(p, 0, "ab");
    assert NatToString(1) == "1";
  }

  lemma ExampleConverted(p: Parsers)
    requires !p.tryDateTime("0 ab") && !p.tryDouble("0 ab")
    requires !p.tryDateTime("x") && !p.tryDouble("x")
    ensures ConvertLine(p, Trim("0 ab")) == Success("a")
    ensures ConvertLine(p, Trim("x")).Failure?
    ensures FormatLine("a") == "1 a"
  {
    ExampleTrimmed();
    ExampleLines(p);
  }

  /** The instance `["0 ab", "x"]`: `"0 ab"` selects `'a'`, `"x"` has a single
      token, so the file fails while its output file holds `"1 a"`. */
  lemma PartialOutputExample(p: Parsers)
    requires !p.tryDateTime("0 ab") && !p.tryDouble("0 ab")
    requires !p.tryDateTime("x") && !p.tryDouble("x")
    ensures ConvertFile(p, ["0 ab", "x"]).Failure?
    ensures WrittenLines(p, PreparedLines(["0 ab", "x"])) == ["1 a"]
  {
    ExampleConverted(p);
    PartialOutputOnFailure(p, "0 ab", "x", "a");
  }

  // ---- Blank lines ----

  /** A non-empty line made only of white space fails the whole file
      whenever neither parser accepts the empty string: it survives the
      `""` test, is trimmed to `""`, and `""` splits into a single token. */
  lemma BlankLineFailsFile(p: Parsers, lines: seq<string>, k: nat)
    requires k < |lines| && lines[k] != "" && AllWhiteSpace(lines[k])
    requires !p.tryDateTime("") && !p.tryDouble("")
    ensures ConvertFile(p, lines) == Failure(FormatError)
  {
    WhiteSpaceLineKept(lines, k);
    var j := |NonEmptyLines(lines[..k])|;
    assert ConvertLine(p, PreparedLines(lines)[j]).Failure?;
  }

  /** The lines a preparation that skips blank lines keeps: those that are not
      white space only (`string.IsNullOrWhiteSpace` is false), in order. */
  function NonBlankLines(lines: seq<string>): (kept: seq<string>)
    ensures |kept| <= |lines|
    ensures forall k :: 0 <= k < |kept| ==> !AllWhiteSpace(kept[k])
    ensures forall l :: l in kept <==> l in lines && !AllWhiteSpace(l)
  {
    if lines == [] then []
    else
      var init, last := lines[..|lines| - 1], lines[|lines| - 1];
      assert lines == init + [last];
      NonBlankLines(init) + (if AllWhiteSpace(last) then [] else [last])
  }

  lemma {:induction false} NonBlankLinesAppend(a: seq<string>, b: seq<string>)
    ensures NonBlankLines(a + b) == NonBlankLines(a) + NonBlankLines(b)
  {
    if b != [] {
      var init := b[..|b| - 1];
      assert (a + b)[..|a + b| - 1] == a + init;
      assert (a + b)[|a + b| - 1] == b[|b| - 1];
      NonBlankLinesAppend(a, init);
    } else {
      assert a + b == a;
    }
  }

  /** Preparation that skips blank lines: every line it hands to the
      classifier, the trailer included, is non-empty, and the trailer counts
      the non-blank lines. */
  function PreparedNonBlankLines(lines: seq<string>): (prepared: seq<string>)
    ensures |prepared| == |NonBlankLines(lines)| + 1
    ensures prepared[|prepared| - 1] == NatToString(|NonBlankLines(lines)|)
    ensures forall k :: 0 <= k < |prepared| - 1 ==> prepared[k] == Trim(NonBlankLines(lines)[k])
    ensures forall k :: 0 <= k < |prepared| ==> prepared[k] != ""
  {
    var kept := NonBlankLines(lines);
    TrimAll(kept) + [NatToString(|kept|)]
  }

  /** With blank lines skipped, a blank line anywhere changes nothing. */
  lemma BlankLineIgnored(a: seq<string>, blank: string, b: seq<string>)
    requires AllWhiteSpace(blank)
    ensures PreparedNonBlankLines(a + [blank] + b) == PreparedNonBlankLines(a + b)
  {
    BlankLineDropped(a, blank, b);
  }

  lemma BlankLineDropped(a: seq<string>, blank: string, b: seq<string>)
    requires AllWhiteSpace(blank)
    ensures NonBlankLines(a + [blank] + b) == NonBlankLines(a + b)
  {
    assert NonBlankLines([blank]) == [] by {
      assert [blank][..0] == [];
    }
    NonBlankLinesAppend(a, [blank]);
    NonBlankLinesAppend(a + [blank], b);
    NonBlankLinesAppend(a, b);
  }

  /** Where no line is white space only without being `""`, skipping blank
      lines and skipping `""` prepare the same lines. */
  lemma {:induction false} NonBlankAgreesWithNonEmpty(lines: seq<string>)
    requires forall k :: 0 <= k < |lines| ==> lines[k] == "" || !AllWhiteSpace(lines[k])
    ensures NonBlankLines(lines) == NonEmptyLines(lines)
    ensures PreparedNonBlankLines(lines) == PreparedLines(lines)
  {
    if lines != [] {
      var init := lines[..|lines| - 1];
      assert forall k :: 0 <= k < |init| ==> init[k] == lines[k];
      NonBlankAgreesWithNonEmpty(init);
    }
  }

  /** The file conversion with blank lines skipped: one output line per
      non-blank line plus the trailer exactly when every prepared line
      converts, and a `FormatException` otherwise. */
  function ConvertFileSkippingBlank(p: Parsers, lines: seq<string>): (r: Result<seq<string>, Exc>)
    ensures r.Success? ==> |r.value| == |NonBlankLines(lines)| + 1
    ensures r.Failure? ==> r.error == FormatError
    ensures r.Success? <==> forall k :: 0 <= k < |PreparedNonBlankLines(lines)| ==>
      ConvertLine(p, PreparedNonBlankLines(lines)[k]).Success?
    ensures r.Success? ==> forall k :: 0 <= k < |r.value| ==>
      r.value[k] == FormatLine(ConvertLine(p, PreparedNonBlankLines(lines)[k]).value)
  {
    ConvertLines(p, PreparedNonBlankLines(lines))
  }
}
