/** The PHP string primitives the report layer relies on, over strings of
    code points (what `mb_strlen` and `mb_substr` measure). */
module PhpStrings {

  import opened Wrappers

  /** `PHP_EOL` on the platforms this models. */
  const EOL: string := "\n"

  // ---------------------------------------------------------------------
  // trim()
  // ---------------------------------------------------------------------

  /** The characters PHP's `trim` strips by default: " \t\n\r\0\x0B". */
  predicate IsTrimChar(c: char) {
    c == ' ' || c == '\t' || c == '\n' || c == '\r' || c == '\0' || c == '\U{000B}'
  }

  function TrimLeft(s: string): string
    decreases |s|
  {
    if |s| > 0 && IsTrimChar(s[0]) then TrimLeft(s[1..]) else s
  }

  function TrimRight(s: string): string
    decreases |s|
  {
    if |s| > 0 && IsTrimChar(s[|s| - 1]) then TrimRight(s[..|s| - 1]) else s
  }

  /** PHP `trim($s)` with the default character list. */
  function Trim(s: string): string {
    TrimRight(TrimLeft(s))
  }

  lemma {:induction false} TrimLeftCut(s: string) returns (i: nat)
    ensures i <= |s| && TrimLeft(s) == s[i..]
    ensures forall k | 0 <= k < i :: IsTrimChar(s[k])
    ensures i < |s| ==> !IsTrimChar(s[i])
  {
    if |s| > 0 && IsTrimChar(s[0]) {
      var i' := TrimLeftCut(s[1..]);
      i := i' + 1;
      assert s[1..][i'..] == s[i..];
    } else {
      i := 0;
    }
  }

  lemma {:induction false} TrimRightCut(s: string) returns (j: nat)
    ensures j <= |s| && TrimRight(s) == s[..j]
    ensures forall k | j <= k < |s| :: IsTrimChar(s[k])
    ensures 0 < j ==> !IsTrimChar(s[j - 1])
  {
    if |s| > 0 && IsTrimChar(s[|s| - 1]) {
      j := TrimRightCut(s[..|s| - 1]);
      assert s[..|s| - 1][..j] == s[..j];
    } else {
      j := |s|;
    }
  }

  /** `trim` removes a run of trim characters from each end and nothing
      else: the result is the slice `s[i..j]`, everything outside it is a
      trim character, and a non-empty result neither starts nor ends with one. */
  lemma TrimIsSlice(s: string) returns (i: nat, j: nat)
    ensures i <= j <= |s| && Trim(s) == s[i..j]
    ensures forall k | 0 <= k < i :: IsTrimChar(s[k])
    ensures forall k | j <= k < |s| :: IsTrimChar(s[k])
    ensures i < j ==> !IsTrimChar(s[i]) && !IsTrimChar(s[j - 1])
  {
    i := TrimLeftCut(s);
    var j' := TrimRightCut(s[i..]);
    j := i + j';
    assert s[i..][..j'] == s[i..j];
    forall k | j <= k < |s| ensures IsTrimChar(s[k]) {
      assert s[k] == s[i..][k - i];
    }
    if i < j {
      assert s[i] == s[i..][0];
      if j' == 0 { assert false; }
      assert s[j - 1] == s[i..][j' - 1];
    }
  }

  /** The trimmed text is empty exactly when every character is a trim character. */
  lemma TrimEmptyIff(s: string)
    ensures Trim(s) == [] <==> forall k | 0 <= k < |s| :: IsTrimChar(s[k])
  {
    var i, j := TrimIsSlice(s);
    if Trim(s) == [] {
      assert |s[i..j]| == 0;
    } else {
      assert i < j && !IsTrimChar(s[i]);
    }
  }

  /** A text that neither starts nor ends with a trim character is left alone. */
  lemma TrimKeeps(s: string)
    requires s == [] || (!IsTrimChar(s[0]) && !IsTrimChar(s[|s| - 1]))
    ensures Trim(s) == s
  {
    assert TrimLeft(s) == s;
  }

  /** A text that is already trimmed only loses the final line break of `s + EOL`. */
  lemma TrimDropsFinalBreak(s: string)
    requires |s| > 0 && !IsTrimChar(s[0]) && !IsTrimChar(s[|s| - 1])
    ensures Trim(s + EOL) == s
  {
    var t := s + EOL;
    assert t[0] == s[0];
    assert TrimLeft(t) == t;
    assert t[..|t| - 1] == s;
    assert TrimRight(s) == s;
  }

  /** `trim` is idempotent. */
  lemma TrimIdempotent(s: string)
    ensures Trim(Trim(s)) == Trim(s)
  {
    var i, j := TrimIsSlice(s);
    var t := Trim(s);
    if t != [] {
      assert t[0] == s[i] && t[|t| - 1] == s[j - 1];
    }
    TrimKeeps(t);
  }

  // ---------------------------------------------------------------------
  // preg_split('/\R/u', $s)
  // ---------------------------------------------------------------------

  /** The single characters `\R` matches in UTF-8 mode: LF, CR, VT, FF,
      NEL, LINE SEPARATOR and PARAGRAPH SEPARATOR. */
  predicate IsBreakChar(c: char) {
    c == '\n' || c == '\r' || c == '\U{000B}' || c == '\U{000C}' ||
    c == '\U{0085}' || c == '\U{2028}' || c == '\U{2029}'
  }

  /** Length of the `\R` match at the start of `s`, 0 when there is none;
      CR LF is matched as one break. */
  function BreakLength(s: string): (n: nat)
    ensures n <= |s| && n <= 2
    ensures n > 0 <==> |s| > 0 && IsBreakChar(s[0])
    ensures n == 2 <==> |s| >= 2 && s[0] == '\r' && s[1] == '\n'
  {
    if |s| >= 2 && s[0] == '\r' && s[1] == '\n' then 2
    else if |s| >= 1 && IsBreakChar(s[0]) then 1
    else 0
  }

  /** The lines of `s`, split at every `\R`. There is always at least one
      line; an empty text is one empty line. */
  function SplitLines(s: string): (lines: seq<string>)
    ensures |lines| >= 1
    decreases |s|
  {
    if s == [] then [""]
    else if BreakLength(s) > 0 then [""] + SplitLines(s[BreakLength(s)..])
    else
      var rest := SplitLines(s[1..]);
      [[s[0]] + rest[0]] + rest[1..]
  }

  /** CR LF is one line break, not two: it ends a single (here empty) line. */
  lemma SplitLinesCrLf(t: string)
    ensures SplitLines("\r\n" + t) == [""] + SplitLines(t)
  {
    var s := "\r\n" + t;
    assert BreakLength(s) == 2;
    assert s[2..] == t;
  }

  /** The parts joined with the separator between consecutive parts. */
  function Join(parts: seq<string>, sep: string): string
    decreases |parts|
  {
    if |parts| == 0 then ""
    else if |parts| == 1 then parts[0]
    else parts[0] + sep + Join(parts[1..], sep)
  }

  /** Appending one more part adds exactly one separator. */
  lemma {:induction false} JoinSnoc(parts: seq<string>, p: string, sep: string)
    requires |parts| >= 1
    ensures Join(parts + [p], sep) == Join(parts, sep) + sep + p
    decreases |parts|
  {
    if |parts| > 1 {
      assert (parts + [p])[1..] == parts[1..] + [p];
      JoinSnoc(parts[1..], p, sep);
    } else {
      assert parts + [p] == [parts[0], p];
    }
  }

  /** The join ends with the last part. */
  lemma {:induction false} JoinEndsWithLast(parts: seq<string>, sep: string)
    requires |parts| >= 1
    ensures EndsWith(Join(parts, sep), parts[|parts| - 1])
    decreases |parts|
  {
    if |parts| > 1 {
      JoinEndsWithLast(parts[1..], sep);
    }
  }

  predicate EndsWith(s: string, suffix: string) {
    |suffix| <= |s| && s[|s| - |suffix|..] == suffix
  }

  /** `s` with every `\R` replaced by a single LF. */
  function NormaliseBreaks(s: string): string
    decreases |s|
  {
    if s == [] then ""
    else if BreakLength(s) > 0 then EOL + NormaliseBreaks(s[BreakLength(s)..])
    else [s[0]] + NormaliseBreaks(s[1..])
  }

  /** Joining the split lines with LF gives the text back with its line
      breaks normalised: nothing but the breaks is lost. */
  lemma {:induction false} SplitLinesJoin(s: string)
    ensures Join(SplitLines(s), EOL) == NormaliseBreaks(s)
    decreases |s|
  {
    if s == [] {
    } else if BreakLength(s) > 0 {
      var rest := SplitLines(s[BreakLength(s)..]);
      SplitLinesJoin(s[BreakLength(s)..]);
      assert ([""] + rest)[1..] == rest;
    } else {
      var rest := SplitLines(s[1..]);
      SplitLinesJoin(s[1..]);
      var lines := [[s[0]] + rest[0]] + rest[1..];
      if |rest| == 1 {
        assert lines == [[s[0]] + rest[0]];
      } else {
        assert lines[1..] == rest[1..];
        assert Join(rest, EOL) == rest[0] + EOL + Join(rest[1..], EOL);
      }
    }
  }

  /** No split line contains a line-break character. */
  lemma {:induction false} SplitLinesHaveNoBreaks(s: string)
    ensures forall n, k | 0 <= n < |SplitLines(s)| && 0 <= k < |SplitLines(s)[n]| ::
      !IsBreakChar(SplitLines(s)[n][k])
    decreases |s|
  {
    if s == [] {
    } else if BreakLength(s) > 0 {
      SplitLinesHaveNoBreaks(s[BreakLength(s)..]);
    } else {
      SplitLinesHaveNoBreaks(s[1..]);
      var rest := SplitLines(s[1..]);
      forall n, k | 0 <= n < |SplitLines(s)| && 0 <= k < |SplitLines(s)[n]|
        ensures !IsBreakChar(SplitLines(s)[n][k])
      {
        if n == 0 {
          if k > 0 { assert SplitLines(s)[0][k] == rest[0][k - 1]; }
        } else {
          assert SplitLines(s)[n] == rest[n];
        }
      }
    }
  }

  /** A text without line breaks is a single line. */
  lemma {:induction false} SplitLinesSingle(s: string)
    requires forall k | 0 <= k < |s| :: !IsBreakChar(s[k])
    ensures SplitLines(s) == [s]
    decreases |s|
  {
    if s != [] {
      SplitLinesSingle(s[1..]);
      assert BreakLength(s) == 0;
      assert [s[0]] + s[1..] == s;
    }
  }

  // ---------------------------------------------------------------------
  // Integers as decimal text
  // ---------------------------------------------------------------------

  predicate IsDigit(c: char) {
    '0' <= c <= '9'
  }

  function DigitChar(d: nat): (c: char)
    requires d < 10
    ensures IsDigit(c)
  {
    "0123456789"[d]
  }

  function DigitValue(c: char): nat
    requires IsDigit(c)
  {
    (c as int - '0' as int) as nat
  }

  /** Decimal digits of `n`, most significant first, without leading zeros. */
  function NatToString(n: nat): (r: string)
    ensures |r| >= 1
    ensures forall k | 0 <= k < |r| :: IsDigit(r[k])
    decreases n
  {
    if n < 10 then [DigitChar(n)] else NatToString(n / 10) + [DigitChar(n % 10)]
  }

  /** PHP's `(string)` of an int: optional minus sign, then the digits. */
  function IntToString(i: int): (r: string)
    ensures |r| >= 1
  {
    if i < 0 then "-" + NatToString(-i) else NatToString(i)
  }

  /** The number a non-empty run of decimal digits denotes; `None` for any
      other string. */
  function DigitsNumber(s: string): Option<nat>
    decreases |s|
  {
    if |s| == 0 || !IsDigit(s[|s| - 1]) then None
    else if |s| == 1 then Some(DigitValue(s[0]))
    else match DigitsNumber(s[..|s| - 1])
      case Some(v) => Some(v * 10 + DigitValue(s[|s| - 1]))
      case None => None
  }

  lemma {:induction false} NatToStringRoundTrip(n: nat)
    ensures DigitsNumber(NatToString(n)) == Some(n)
    decreases n
  {
    if n >= 10 {
      var s := NatToString(n);
      assert s[..|s| - 1] == NatToString(n / 10);
      NatToStringRoundTrip(n / 10);
      assert DigitValue(DigitChar(n % 10)) == n % 10;
    } else {
      assert DigitValue(DigitChar(n)) == n;
    }
  }

  /** The whitespace PHP 8 allows around a numeric string: " \t\n\r\v\f". */
  predicate IsNumericSpace(c: char) {
    c == ' ' || c == '\t' || c == '\n' || c == '\r' || c == '\U{000B}' || c == '\U{000C}'
  }

  /** An optional sign followed by digits. */
  function SignedNumber(t: string): Option<int> {
    if |t| > 0 && (t[0] == '-' || t[0] == '+') then
      match DigitsNumber(t[1..])
      case Some(v) => Some(if t[0] == '-' then -(v as int) else v)
      case None => None
    else
      match DigitsNumber(t)
      case Some(v) => Some(v)
      case None => None
  }

  /** The value of a PHP numeric string in integer form (surrounding
      whitespace, an optional sign, one or more digits); `None` for any
      other string. */
  function IntegerStringValue(s: string): Option<int>
    decreases |s|
  {
    if |s| > 0 && IsNumericSpace(s[0]) then IntegerStringValue(s[1..])
    else if |s| > 0 && IsNumericSpace(s[|s| - 1]) then IntegerStringValue(s[..|s| - 1])
    else SignedNumber(s)
  }

  /** Without surrounding whitespace, a numeric string is read by its sign and digits. */
  lemma IntegerStringUnpadded(s: string)
    requires |s| > 0 && !IsNumericSpace(s[0]) && !IsNumericSpace(s[|s| - 1])
    ensures IntegerStringValue(s) == SignedNumber(s)
  {
  }

  lemma SignedNumberOfText(i: int)
    ensures SignedNumber(IntToString(i)) == Some(i)
  {
    var s := IntToString(i);
    if i < 0 {
      assert s[0] == '-' && s[1..] == NatToString(-i);
      NatToStringRoundTrip(-i);
    } else {
      assert IsDigit(s[0]);
      NatToStringRoundTrip(i);
    }
  }

  /** Reading back the decimal text of an int gives the int. */
  lemma IntToStringRoundTrip(i: int)
    ensures IntegerStringValue(IntToString(i)) == Some(i)
  {
    var s := IntToString(i);
    if i < 0 {
      assert s[0] == '-';
    } else {
      assert IsDigit(s[0]);
    }
    assert IsDigit(s[|s| - 1]);
    IntegerStringUnpadded(s);
    SignedNumberOfText(i);
  }

  /** The decimal text of an int is never changed by `trim`. */
  lemma IntToStringTrimmed(i: int)
    ensures Trim(IntToString(i)) == IntToString(i)
  {
    var s := IntToString(i);
    assert !IsTrimChar(s[0]) && !IsTrimChar(s[|s| - 1]);
    TrimKeeps(s);
  }

  // ---------------------------------------------------------------------
  // str_repeat('-', $n)
  // ---------------------------------------------------------------------

  function Dashes(n: nat): (r: string)
    ensures |r| == n
    ensures forall k | 0 <= k < n :: r[k] == '-'
  {
    if n == 0 then "" else Dashes(n - 1) + "-"
  }
}
