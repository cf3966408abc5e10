# Line converter core, modelled in Dafny

The program rewrites a text file line by line. `PrepareLines` drops every
line that is exactly empty, trims the others and appends one trailer line: the
decimal count of the lines it kept. `ConvertLine` then classifies each prepared
line by first match:

1. a date/time, re-rendered in the invariant culture;
2. else a floating-point number, re-rendered in the invariant culture;
3. else a char-index instruction `"<i> <word>"`, which becomes the one-character string `word[i]`.

When none of the rules applies, `ConvertLine` throws. This is `FormatException`
for a malformed line, or `OverflowException` when the index token of an
instruction does not fit in 32 bits (`int.Parse`). `ConvertFile` writes each
result as `"<length> <text>"` to `<file>.out`, and turns a failure of any line,
whichever exception it was, into a `FormatException`.

The project has four modules:

- `Results` (results.dfy): `Option` (null), `Result` (a value or a thrown exception), `Exc` (`FormatException`, `OverflowException`).
- `NetText` (net_text.dfy): the .NET primitives the core relies on. These are `Char.IsWhiteSpace`, `String.Trim()`, `String.Split()` with no separators (empty tokens kept), `Int32.ToString()` of a count and `int.Parse` of a token.
- `LineClassifier` (line_classifier.dfy): `ConvertAsCharIndexInstruction` and `ConvertLine`. The culture-dependent `DateTime.TryParse` / `double.TryParse` and their invariant `ToString` are the four function fields of a `Parsers` value passed in as a parameter.
- `FilePipeline` (file_pipeline.dfy): the specification `PreparedLines` and the loop `PrepareLines` proved equal to it. Also the map-and-format step `ConvertLines` / `ConvertFile` (all or nothing), what the lazy write leaves on disk (`WrittenLines`), and the corrected blank-line preparation.

In two places the code does less than its evident design intends. The model follows the code and records both under "## Findings":
- blank lines are meant to be dropped, so that the classifier only sees non-empty lines, but a line of white space only gets through;
- a file with a malformed line is meant to produce no output, but the lines before the malformed one are written.

## Model

| member | source | states |
|---|---|---|
| `NetText.Trim` | Exceptions/ConverterProgram.cs:103 | the result is a contiguous slice of the line with no white space at either end, and everything cut off before and after it is white space; it is empty exactly when the line is white space only; a line without white space is unchanged |
| `NetText.Split` | Exceptions/ConverterProgram.cs:126 | one token more than there are white-space characters; no token contains white space |
| `NetText.SplitJoin` | Exceptions/ConverterProgram.cs:126 | putting the separators back between the tokens gives back the line, so nothing is lost and empty tokens are kept |
| `NetText.SplitSingle` | Exceptions/ConverterProgram.cs:126-127 | the split has fewer than two tokens exactly when the line has no white space, and then the single token is the line |
| `NetText.SplitAfterToken` | Exceptions/ConverterProgram.cs:126 | a white-space-free token followed by a separator is the first token, and the rest is split on its own |
| `NetText.NatToString` | Exceptions/ConverterProgram.cs:106 | the rendering of the count is non-empty, all decimal digits, has no leading zero unless the count is 0, and is a single digit exactly when the count is below 10 (so 0 is rendered `"0"`) |
| `NetText.NatToStringValue` | Exceptions/ConverterProgram.cs:106 | reading the digits back gives the number (round trip) |
| `NetText.ParseInt32` | Exceptions/ConverterProgram.cs:128 | `FormatException` exactly when the token, less an optional leading sign, is empty or has a non-digit; otherwise the signed decimal value, or `OverflowException` when that value lies outside the 32-bit range |
| `NetText.LeadingZeroValue` | Exceptions/ConverterProgram.cs:128 | a leading zero does not change the value of a digit string |
| `NetText.PlusSignParse` | Exceptions/ConverterProgram.cs:128 | a plus sign before any digit string within range is read as no sign |
| `NetText.LeadingZeroParse` | Exceptions/ConverterProgram.cs:128 | a zero before any digit string within range leaves its parsed value unchanged |
| `NetText.ParseNonCanonical` | Exceptions/ConverterProgram.cs:128 | `int.Parse` also reads `"+<n>"` and `"0<n>"` as `n` |
| `NetText.ParseNatToString` | Exceptions/ConverterProgram.cs:128 | `int.Parse` reads back the decimal rendering of any value up to `int.MaxValue` |
| `NetText.ParseNegatedNatToString` | Exceptions/ConverterProgram.cs:128 | a minus sign before a rendering parses to the negated value, down to `int.MinValue` |
| `NetText.ParseTooLarge` | Exceptions/ConverterProgram.cs:128 | a rendering above `int.MaxValue` throws `OverflowException` |
| `LineClassifier.ConvertAsCharIndexInstruction` | Exceptions/ConverterProgram.cs:124-133 | a line without white space (fewer than two tokens) gives null; with two or more tokens, the exception of `int.Parse` on the first token is passed on, and a parsed index `i` gives `[parts[1][i]]` when `0 <= i < |parts[1]|` and null otherwise; a non-null result is one non-white-space character of the line |
| `LineClassifier.CharIndexInstruction` | Exceptions/ConverterProgram.cs:126-132 | for `"<i> <word>"`, with or without further tokens, the result is `[word[i]]` when `i < |word|` and null otherwise |
| `LineClassifier.NegativeCharIndex` | Exceptions/ConverterProgram.cs:128-130 | a negative index parses but gives null |
| `LineClassifier.OverflowingCharIndex` | Exceptions/ConverterProgram.cs:128 | an index token above the 32-bit range throws `OverflowException` |
| `LineClassifier.NonNumericCharIndex` | Exceptions/ConverterProgram.cs:128 | a first token that is not a signed number throws `FormatException`, even when a second token follows |
| `LineClassifier.ConvertLine` | Exceptions/ConverterProgram.cs:109-116 | dispatch order: the date rendering if the date parser accepts; else the number rendering if the number parser accepts; else the char-index result, with null turned into `FormatException` and the exception of `int.Parse` passed on. Only the char-index rule fails, always with `FormatException` when the line has no white space; its successes are one character of the line |
| `LineClassifier.ConvertInstructionLine` | Exceptions/ConverterProgram.cs:111-115 | an instruction line that neither parser accepts converts to `word[i]` when `i` is in range, and is a malformed line otherwise |
| `FilePipeline.NonEmptyLines` | Exceptions/ConverterProgram.cs:100-102 | the kept lines are exactly the lines different from `""`; there are as many as the input has lines minus its occurrences of `""` |
| `FilePipeline.NonEmptyLinesAppend` | Exceptions/ConverterProgram.cs:100-103 | filtering keeps the input order (it distributes over concatenation) |
| `FilePipeline.TrimAll` | Exceptions/ConverterProgram.cs:103 | each kept line is trimmed in place, position by position |
| `FilePipeline.PreparedLines` | Exceptions/ConverterProgram.cs:97-107 | the output has (number of lines other than `""`) + 1 elements; the last is the decimal rendering of that number; the earlier ones are the kept lines trimmed, in order |
| `FilePipeline.PrepareLines` | Exceptions/ConverterProgram.cs:97-107 | the skipping, trimming and counting loop yields exactly `PreparedLines` |
| `FilePipeline.WhiteSpaceLineKept` | Exceptions/ConverterProgram.cs:102-104 | a white-space-only line is not skipped: it appears as `""` after the lines kept before it, and adds one to the trailer count |
| `FilePipeline.FormatLine` | Exceptions/ConverterProgram.cs:86 | an output line is as long as the length digits, one space and the text together |
| `FilePipeline.FormatLineDecodes` | Exceptions/ConverterProgram.cs:86 | in an output line, the digits before the first space give the length of what follows it, and what follows it is the converted text |
| `FilePipeline.ConvertLines` | Exceptions/ConverterProgram.cs:82-92 | success exactly when every prepared line converts; then one formatted line per prepared line, in order; any failure is a `FormatException` with no converted sequence |
| `FilePipeline.ConvertFile` | Exceptions/ConverterProgram.cs:81-92 | a converted file has (lines other than `""`) + 1 lines; it fails with `FormatException` exactly when some prepared line, the trailer included, fails to convert; otherwise line `k` of the output is `FormatLine` of the conversion of prepared line `k` |
| `FilePipeline.WrittenLines` | Exceptions/ConverterProgram.cs:84-87 | the written file is the formatted conversion of the prepared lines up to the first line that fails |
| `FilePipeline.WrittenLinesAgree` | Exceptions/ConverterProgram.cs:84-91 | the written file equals the conversion when it succeeds; it is cut short exactly when the conversion fails |
| `FilePipeline.PartialOutputOnFailure` | Exceptions/ConverterProgram.cs:84-91 | in a two-line file whose first line converts and whose second fails, the conversion fails but the output file holds the first line |
| `FilePipeline.PartialOutputExample` | Exceptions/ConverterProgram.cs:84-91 | the file `["0 ab", "x"]` fails, yet its output file holds `"1 a"` |
| `FilePipeline.BlankLineFailsFile` | Exceptions/ConverterProgram.cs:102-103 | one white-space-only line fails the whole file whenever neither parser accepts `""` |
| `FilePipeline.NonBlankLines` | Exceptions/ConverterProgram.cs:100-102 | corrected filter: the kept lines are exactly the lines that are not white space only |
| `FilePipeline.PreparedNonBlankLines` | Exceptions/ConverterProgram.cs:97-107 | corrected preparation: the non-blank lines trimmed, in order, then the count of non-blank lines; every line handed to the classifier, trailer included, is non-empty |
| `FilePipeline.NonBlankAgreesWithNonEmpty` | Exceptions/ConverterProgram.cs:102-106 | on a file with no white-space-only line, the corrected preparation is the original one |
| `FilePipeline.BlankLineIgnored` | Exceptions/ConverterProgram.cs:102 | with the corrected filter, a blank line anywhere in the file changes nothing |
| `FilePipeline.ConvertFileSkippingBlank` | Exceptions/ConverterProgram.cs:81-92 | corrected conversion: succeeds exactly when every line of the corrected preparation converts, with one output line per non-blank line plus the trailer, line `k` being `FormatLine` of the conversion of corrected prepared line `k`; otherwise a `FormatException` |

## Findings

| source | as written | input that shows it | evidently intended | confidence | as-written member | corrected member |
|---|---|---|---|---|---|---|
| Exceptions/ConverterProgram.cs:102-103 | the skip test `line == ""` runs before `Trim()`, so a white-space-only line is kept as `""`; `""` splits into one token and throws `FormatException` | `["1 abc", "   "]`: prepared `["1 abc", "", "2"]`, and the file fails | blank lines are skipped, so the classifier never sees an empty line | medium, not executed | `FilePipeline.BlankLineFailsFile` | `FilePipeline.PreparedNonBlankLines` |
| Exceptions/ConverterProgram.cs:84-91 | `File.WriteAllLines` opens `<file>.out` and then pulls the lazy sequence, so the lines before a failing one are already written when the `FormatException` is thrown | `["0 ab", "x"]`: the file fails, yet `<file>.out` holds `"1 a"` | no output is committed for a file with a malformed line | medium, not executed | `FilePipeline.PartialOutputExample` | `FilePipeline.ConvertFile` |

The corrected preparation feeds `FilePipeline.ConvertFileSkippingBlank`; `FilePipeline.ConvertFile` is the all-or-nothing result. The as-written members stay beside them, so the model still describes the code as it is.

## Left out

- `Main` and the default file name `text.txt` (lines 18-31): process entry point only.
- `LoadSettings` (lines 49-66): XML deserialisation and reading `settings.xml`, which are library calls and file I/O.
- `ConvertFiles` and `HandleExceptions` (lines 33-47): one task per file, `Task.WaitAll` and error logging. This is concurrency and logging; each file's outcome is the `Result` of `ConvertFile`.
- The missing-file branch of `ConvertFile` (lines 70-74): the file's lines are a parameter. `File.ReadLines` and `File.WriteAllLines` (lines 87, 100) are not modelled as I/O: the input is a `seq<string>` and the written file is a returned sequence. I/O errors while reading are not modelled.
- Setting `Thread.CurrentThread.CurrentCulture` and the verbose log lines (lines 75-80): the culture's effect on parsing is carried by the `Parsers` parameter.
- The internals of `DateTime.TryParse`, `double.TryParse` and their invariant-culture `ToString` (lines 135-155): they are the uninterpreted fields of `Parsers`. Calling `TryParse` twice, as the source does, is one deterministic function here.
- `TryConvertAsCharIndexInstruction` (lines 118-122): never called.
- `DateTime.TryParse` fills in today's date for a line that holds only a time of day. The date rendering `dateTimeText` therefore depends on the clock; here it is a fixed function of the line.
- Strings are sequences of Unicode scalar values. .NET strings are UTF-16, so a character outside the Basic Multilingual Plane counts as 2 in `Length` and in indexing there and as 1 here.
- `NetText.ParseInt32`: only ASCII `+` and `-` are signs, and trailing `'\0'` characters are not accepted. .NET takes the sign strings from the current culture and ignores trailing nulls. Leading and trailing white space, which `int.Parse` allows, cannot occur in a token produced by `Split`.
- `FilePipeline.PreparedLines`: the count is an unbounded natural number. The source's `int` counter would wrap after 2^31 - 1 kept lines.
