/** The .NET string and integer primitives the converter relies on:
    `Char.IsWhiteSpace`, `String.Trim()`, `String.Split()` with no
    separators, `Int32.ToString()` for a non-negative value and `int.Parse`. */
module NetText {
  import opened Results

  /** `Char.IsWhiteSpace`: U+0009..U+000D, U+0020, U+0085, U+00A0, the Unicode
      space separators, and the line and paragraph separators. */
  predicate IsWhiteSpace(c: char) {
    c == ' ' || ('\t' <= c <= '\r') || c == '\U{85}' || c == '\U{A0}' || c == '\U{1680}'
    || ('\U{2000}' <= c <= '\U{200A}') || c == '\U{2028}' || c == '\U{2029}'
    || c == '\U{202F}' || c == '\U{205F}' || c == '\U{3000}'
  }

  predicate NoWhiteSpace(s: string) {
    forall k :: 0 <= k < |s| ==> !IsWhiteSpace(s[k])
  }

  predicate AllWhiteSpace(s: string) {
    forall k :: 0 <= k < |s| ==> IsWhiteSpace(s[k])
  }

  /** The index of the first character at or after `i` that is not white
      space (or `|s|` when there is none). */
  function SkipWhiteSpace(s: string, i: nat): (b: nat)
    requires i <= |s|
    ensures i <= b <= |s|
    ensures b == |s| || !IsWhiteSpace(s[b])
    ensures forall k :: i <= k < b ==> IsWhiteSpace(s[k])
    decreases |s| - i
  {
    if i < |s| && IsWhiteSpace(s[i]) then SkipWhiteSpace(s, i + 1) else i
  }

  /** The index just past the last character before `j`, and not before `lo`,
      that is not white space (or `lo` when there is none). */
  function BackOverWhiteSpace(s: string, lo: nat, j: nat): (e: nat)
    requires lo <= j <= |s|
    ensures lo <= e <= j
    ensures e == lo || !IsWhiteSpace(s[e - 1])
    ensures forall k :: e <= k < j ==> IsWhiteSpace(s[k])
    decreases j
  {
    if j > lo && IsWhiteSpace(s[j - 1]) then BackOverWhiteSpace(s, lo, j - 1) else j
  }

  /** `String.Trim()`: the slice of `s` between its leading and its trailing
      white space. Everything cut off on either side is white space, the
      slice neither starts nor ends with white space, it is empty exactly
      when `s` is all white space, and it is `s` itself when `s` holds no
      white space at all. */
  function Trim(s: string): (r: string)
    ensures SkipWhiteSpace(s, 0) + |r| <= |s|
    ensures r == s[SkipWhiteSpace(s, 0)..SkipWhiteSpace(s, 0) + |r|]
    ensures forall k :: 0 <= k < SkipWhiteSpace(s, 0) ==> IsWhiteSpace(s[k])
    ensures forall k :: SkipWhiteSpace(s, 0) + |r| <= k < |s| ==> IsWhiteSpace(s[k])
    ensures r == [] || (!IsWhiteSpace(r[0]) && !IsWhiteSpace(r[|r| - 1]))
    ensures r == [] <==> AllWhiteSpace(s)
    ensures NoWhiteSpace(s) ==> r == s
  {
    var b := SkipWhiteSpace(s, 0);
    var e := BackOverWhiteSpace(s, b, |s|);
    s[b..e]
  }

  /** The white-space characters of `s`, in order: the separators `Split` cuts at. */
  function Separators(s: string): (seps: string)
    ensures |seps| <= |s|
    ensures AllWhiteSpace(seps)
  {
    if s == [] then []
    else if IsWhiteSpace(s[0]) then [s[0]] + Separators(s[1..])
    else Separators(s[1..])
  }

  /** `String.Split()` with no arguments: cuts at every white-space character
      and keeps the empty tokens between adjacent separators. */
  function Split(s: string): (parts: seq<string>)
    ensures |parts| == |Separators(s)| + 1
    ensures forall k :: 0 <= k < |parts| ==> NoWhiteSpace(parts[k])
  {
    if s == [] then [""]
    else
      var rest := Split(s[1..]);
      if IsWhiteSpace(s[0]) then [""] + rest
      else [[s[0]] + rest[0]] + rest[1..]
  }

  /** Puts the separators back between the tokens: the inverse of `Split`. */
  function Join(parts: seq<string>, seps: string): (s: string)
    requires |parts| == |seps| + 1
    decreases |seps|
  {
    if seps == [] then parts[0]
    else parts[0] + [seps[0]] + Join(parts[1..], seps[1..])
  }

  lemma {:induction false} JoinExtendsFirst(x: string, parts: seq<string>, seps: string)
    requires |parts| == |seps| + 1
    ensures Join([x + parts[0]] + parts[1..], seps) == x + Join(parts, seps)
  {
    var ps := [x + parts[0]] + parts[1..];
    assert ps[1..] == parts[1..];
  }

  /** Splitting loses nothing: the tokens joined by the separators give back the line. */
  lemma {:induction false} SplitJoin(s: string)
    ensures Join(Split(s), Separators(s)) == s
  {
    if s != [] {
      var rest := Split(s[1..]);
      SplitJoin(s[1..]);
      if IsWhiteSpace(s[0]) {
        assert Split(s)[1..] == rest;
        assert s == [s[0]] + s[1..];
      } else {
        JoinExtendsFirst([s[0]], rest, Separators(s[1..]));
        assert Split(s) == [[s[0]] + rest[0]] + rest[1..];
        assert s == [s[0]] + s[1..];
      }
    }
  }

  lemma {:induction false} SeparatorsEmpty(s: string)
    ensures Separators(s) == [] <==> NoWhiteSpace(s)
  {
    if s != [] {
      SeparatorsEmpty(s[1..]);
      if !IsWhiteSpace(s[0]) {
        assert forall k :: 1 <= k < |s| ==> s[k] == s[1..][k - 1];
      }
    }
  }

  /** `Split` yields fewer than two tokens exactly when the line holds no
      white space, and then the only token is the line itself. */
  lemma {:induction false} SplitSingle(s: string)
    ensures |Split(s)| < 2 <==> NoWhiteSpace(s)
    ensures NoWhiteSpace(s) ==> Split(s) == [s]
  {
    SeparatorsEmpty(s);
    if NoWhiteSpace(s) {
      SplitJoin(s);
    }
  }

  /** A token free of white space, one separator, then the rest: the token
      comes first and the rest is split on its own. */
  lemma {:induction false} SplitAfterToken(a: string, c: char, rest: string)
    requires NoWhiteSpace(a) && IsWhiteSpace(c)
    ensures Split(a + [c] + rest) == [a] + Split(rest)
  {
    var s := a + [c] + rest;
    if a == [] {
      assert s[1..] == rest;
    } else {
      assert s[1..] == a[1..] + [c] + rest;
      SplitAfterToken(a[1..], c, rest);
      assert [a[0]] + a[1..] == a;
    }
  }

  // ---- Decimal digits: Int32.ToString() and int.Parse ----

  predicate IsDigit(c: char) {
    '0' <= c <= '9'
  }

  predicate AllDigits(s: string) {
    forall k :: 0 <= k < |s| ==> IsDigit(s[k])
  }

  function DigitChar(d: nat): (c: char)
    requires d < 10
    ensures IsDigit(c) && c as int - '0' as int == d
  {
    ('0' as int + d) as char
  }

  /** The value of a string of decimal digits, most significant first. */
  function DigitsValue(s: string): nat
    requires AllDigits(s)
  {
    if s == [] then 0
    else DigitsValue(s[..|s| - 1]) * 10 + (s[|s| - 1] as int - '0' as int)
  }

  /** `ToString()` of a non-negative integer: its shortest decimal rendering,
      all digits and without a leading zero unless the value is zero. */
  function NatToString(n: nat): (s: string)
    ensures |s| >= 1 && AllDigits(s) && NoWhiteSpace(s)
    ensures s[0] == '0' ==> n == 0
    ensures |s| == 1 <==> n < 10
  {
    if n < 10 then [DigitChar(n)] else NatToString(n / 10) + [DigitChar(n % 10)]
  }

  /** Reading the rendering back gives the number. */
  lemma {:induction false} NatToStringValue(n: nat)
    ensures DigitsValue(NatToString(n)) == n
  {
    if n >= 10 {
      var s := NatToString(n);
      assert s[..|s| - 1] == NatToString(n / 10);
      NatToStringValue(n / 10);
    }
  }

  const Int32Min: int := -0x8000_0000
  const Int32Max: int := 0x7FFF_FFFF

  /** The token without its leading sign, if it has one. */
  function Unsigned(t: string): (digits: string)
    ensures digits == t || (t != [] && (t[0] == '+' || t[0] == '-') && digits == t[1..])
  {
    if |t| > 0 && (t[0] == '-' || t[0] == '+') then t[1..] else t
  }

  /** `int.Parse` of a token that holds no white space (the only tokens
      `Split` produces): an optional sign, then one or more decimal digits,
      read as the signed decimal value. Anything else throws
      `FormatException`; a value outside the 32-bit range throws
      `OverflowException`. */
  function ParseInt32(t: string): (r: Result<int, Exc>)
    ensures r == Failure(FormatError) <==> Unsigned(t) == [] || !AllDigits(Unsigned(t))
    ensures Unsigned(t) != [] && AllDigits(Unsigned(t)) ==>
      var magnitude: int := DigitsValue(Unsigned(t));
      var v := if t[0] == '-' then -magnitude else magnitude;
      r == if v < Int32Min || v > Int32Max then Failure(OverflowError) else Success(v)
    ensures r.Success? ==> Int32Min <= r.value <= Int32Max
  {
    var digits := Unsigned(t);
    if digits == [] || !AllDigits(digits) then Failure(FormatError)
    else
      var v: int := if t[0] == '-' then -(DigitsValue(digits) as int) else DigitsValue(digits);
      if v < Int32Min || v > Int32Max then Failure(OverflowError) else Success(v)
  }

  /** A leading zero does not change the value of a digit string. */
  lemma {:induction false} LeadingZeroValue(ds: string)
    requires AllDigits(ds)
    ensures AllDigits("0" + ds) && DigitsValue("0" + ds) == DigitsValue(ds)
  {
    var z := "0" + ds;
    if ds != [] {
      assert z[..|z| - 1] == "0" + ds[..|ds| - 1];
      assert z[|z| - 1] == ds[|ds| - 1];
      LeadingZeroValue(ds[..|ds| - 1]);
    }
  }

  /** A plus sign before a digit string is read as no sign at all. */
  lemma PlusSignParse(ds: string)
    requires ds != [] && AllDigits(ds) && DigitsValue(ds) <= Int32Max
    ensures ParseInt32("+" + ds) == Success(DigitsValue(ds) as int)
  {
    var signed := "+" + ds;
    assert signed[0] == '+' && signed[1..] == ds;
    assert Unsigned(signed) == ds;
  }

  /** A leading zero before a digit string is read as part of the magnitude. */
  lemma LeadingZeroParse(ds: string)
    requires AllDigits(ds) && DigitsValue(ds) <= Int32Max
    ensures ParseInt32("0" + ds) == Success(DigitsValue(ds) as int)
  {
    LeadingZeroValue(ds);
    var padded := "0" + ds;
    assert padded[0] == '0' && Unsigned(padded) == padded;
  }

  /** `int.Parse` accepts a plus sign and leading zeros: `"+<n>"` and
      `"0<n>"` both read as `n`. */
  lemma ParseNonCanonical(n: nat)
    requires n <= Int32Max
    ensures ParseInt32("+" + NatToString(n)) == Success(n)
    ensures ParseInt32("0" + NatToString(n)) == Success(n)
  {
    NatToStringValue(n);
    PlusSignParse(NatToString(n));
    LeadingZeroParse(NatToString(n));
  }

  /** `int.Parse` reads back what `ToString()` wrote, within the 32-bit range. */
  lemma ParseNatToString(n: nat)
    requires n <= Int32Max
    ensures ParseInt32(NatToString(n)) == Success(n)
  {
    NatToStringValue(n);
  }

  /** A minus sign in front of a rendering gives the negated value. */
  lemma ParseNegatedNatToString(n: nat)
    requires n <= -Int32Min
    ensures ParseInt32("-" + NatToString(n)).Success?
    ensures ParseInt32("-" + NatToString(n)).value == -(n as int)
  {
    var t := "-" + NatToString(n);
    assert t[1..] == NatToString(n);
    NatToStringValue(n);
  }

  /** A rendering of a value above the 32-bit range overflows. */
  lemma ParseTooLarge(n: nat)
    requires n > Int32Max
    ensures ParseInt32(NatToString(n)) == Failure(OverflowError)
  {
    NatToStringValue(n);
  }
}
