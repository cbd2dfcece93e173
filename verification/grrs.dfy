/** The search loop of grrs/src/main.rs: every line that contains the pattern,
    ignoring case, is printed as `[n] line`, with the 1-based line number
    right-aligned to the width of the line count. */
module Grrs {
  import opened Text

  predicate IsDecimalDigit(c: char) {
    '0' <= c <= '9'
  }

  predicate AllDecimalDigits(s: string) {
    forall i :: 0 <= i < |s| ==> IsDecimalDigit(s[i])
  }

  /** `n.to_string()`: decimal digits without leading zeros. */
  function DecimalDigits(n: nat): (r: string)
    ensures |r| >= 1 && AllDecimalDigits(r)
    ensures r[0] == '0' <==> n == 0
    decreases n
  {
    if n < 10 then [('0' as int + n) as char]
    else DecimalDigits(n / 10) + [('0' as int + n % 10) as char]
  }

  /** The number a string of decimal digits denotes. */
  function ParseDecimal(s: string): nat
    requires AllDecimalDigits(s)
  {
    if s == [] then 0 else ParseDecimal(s[..|s| - 1]) * 10 + (s[|s| - 1] - '0') as nat
  }

  /** Reading back the decimal form gives the number. */
  lemma {:induction false} ParseDecimalDigits(n: nat)
    ensures ParseDecimal(DecimalDigits(n)) == n
    decreases n
  {
    if n >= 10 {
      var r := DecimalDigits(n);
      assert r[..|r| - 1] == DecimalDigits(n / 10);
      ParseDecimalDigits(n / 10);
    }
  }

  function Pow10(k: nat): (p: nat)
    ensures p >= 1
  {
    if k == 0 then 1 else 10 * Pow10(k - 1)
  }

  /** `content.lines().count().to_string().len()`. */
  function Width(count: nat): (w: nat)
    ensures w >= 1
  {
    |DecimalDigits(count)|
  }

  /** The width is the number of decimal digits: the least `w` with
      `count < 10^w`. */
  lemma {:induction false} WidthBounds(count: nat)
    ensures count < Pow10(Width(count))
    ensures Width(count) > 1 ==> Pow10(Width(count) - 1) <= count
    decreases count
  {
    if count >= 10 {
      WidthBounds(count / 10);
      assert Width(count) == Width(count / 10) + 1;
    }
  }

  /** A larger number never has fewer digits. */
  lemma {:induction false} WidthMonotonic(a: nat, b: nat)
    requires a <= b
    ensures Width(a) <= Width(b)
    decreases b
  {
    if a >= 10 {
      WidthMonotonic(a / 10, b / 10);
      assert Width(a) == Width(a / 10) + 1;
      assert Width(b) == Width(b / 10) + 1;
    }
  }

  function Spaces(n: nat): (r: string)
    ensures |r| == n && AllWhitespace(r)
  {
    seq(n, _ => ' ')
  }

  /** `{:>width$}`: spaces on the left up to `width` characters; a longer
      string is kept whole. */
  function PadLeft(s: string, width: nat): (r: string)
    ensures |r| == if |s| >= width then |s| else width
    ensures r == Spaces(|r| - |s|) + s
  {
    if |s| >= width then s else Spaces(width - |s|) + s
  }

  // ---------------------------------------------------------------------------
  // Matching

  /** The pattern occurs at position `i` of the line, ignoring the case of
      ASCII letters. */
  predicate MatchesAt(line: string, pattern: string, i: nat)
    requires i + |pattern| <= |line|
  {
    forall k :: 0 <= k < |pattern| ==> ToAsciiLower(line[i + k]) == ToAsciiLower(pattern[k])
  }

  /** `(?i)` followed by the escaped pattern: a literal, case-insensitive
      substring search. */
  predicate Matches(line: string, pattern: string) {
    exists i: nat :: i + |pattern| <= |line| && MatchesAt(line, pattern, i)
  }

  /** `re.is_match(line)`, searching every start position in turn. */
  method IsMatch(line: string, pattern: string) returns (found: bool)
    ensures found <==> Matches(line, pattern)
  {
    if |pattern| > |line| {
      return false;
    }
    var i: nat := 0;
    while i + |pattern| <= |line|
      invariant i <= |line| - |pattern| + 1
      invariant forall j: nat :: j < i ==> !MatchesAt(line, pattern, j)
    {
      var k := 0;
      while k < |pattern| && ToAsciiLower(line[i + k]) == ToAsciiLower(pattern[k])
        invariant 0 <= k <= |pattern|
        invariant forall m :: 0 <= m < k ==> ToAsciiLower(line[i + m]) == ToAsciiLower(pattern[m])
      {
        k := k + 1;
      }
      if k == |pattern| {
        assert MatchesAt(line, pattern, i);
        return true;
      }
      i := i + 1;
    }
    return false;
  }

  /** The empty pattern matches every line. */
  lemma EmptyPatternMatches(line: string)
    ensures Matches(line, "")
  {
    assert MatchesAt(line, "", 0);
  }

  /** Changing the case of ASCII letters in the line or the pattern does not
      change whether it matches. */
  lemma MatchIgnoresCase(line: string, pattern: string)
    ensures Matches(line, pattern) <==> Matches(MapAsciiLower(line), MapAsciiLower(pattern))
  {
    var l, p := MapAsciiLower(line), MapAsciiLower(pattern);
    forall i: nat | i + |pattern| <= |line|
      ensures MatchesAt(line, pattern, i) <==> MatchesAt(l, p, i)
    {
      forall k | 0 <= k < |pattern|
        ensures ToAsciiLower(line[i + k]) == ToAsciiLower(l[i + k])
        ensures ToAsciiLower(pattern[k]) == ToAsciiLower(p[k])
      {
      }
    }
    if Matches(l, p) {
      var i: nat :| i + |p| <= |l| && MatchesAt(l, p, i);
      assert MatchesAt(line, pattern, i);
    }
    if Matches(line, pattern) {
      var i: nat :| i + |pattern| <= |line| && MatchesAt(line, pattern, i);
      assert MatchesAt(l, p, i);
    }
  }

  // ---------------------------------------------------------------------------
  // Output

  /** The 1-based numbers of the matching lines, in file order. */
  function MatchingNumbers(pattern: string, lines: seq<string>): (r: seq<nat>)
    ensures forall i :: 0 <= i < |r| ==> 1 <= r[i] <= |lines|
    ensures forall i, j :: 0 <= i < j < |r| ==> r[i] < r[j]
    ensures forall n :: n in r <==> 1 <= n <= |lines| && Matches(lines[n - 1], pattern)
  {
    if lines == [] then []
    else
      var init := lines[..|lines| - 1];
      var r := MatchingNumbers(pattern, init);
      assert forall k :: 0 <= k < |init| ==> lines[k] == init[k];
      if Matches(lines[|lines| - 1], pattern) then r + [|lines|] else r
  }

  /** One output line: `[`, the number right-aligned to `width`, `] `, the line. */
  function FormatLine(n: nat, width: nat, line: string): string {
    "[" + PadLeft(DecimalDigits(n), width) + "] " + line
  }

  /** When the number fits the width, the line is `[`, `width` characters of
      number, `] ` and the matching line itself. */
  lemma FormatLineShape(n: nat, width: nat, line: string)
    requires Width(n) <= width
    ensures var r := FormatLine(n, width, line);
            |r| == width + 3 + |line| && r[0] == '[' && r[width + 1..width + 3] == "] "
            && r[width + 3..] == line
  {
  }

  /** Between the brackets sits the padded number. */
  lemma FormatLineField(n: nat, width: nat, line: string)
    requires Width(n) <= width
    ensures var r := FormatLine(n, width, line);
            |r| >= width + 1 && r[1..width + 1] == PadLeft(DecimalDigits(n), width)
  {
    var padded := PadLeft(DecimalDigits(n), width);
    assert FormatLine(n, width, line) == "[" + padded + ("] " + line);
  }

  /** Reads the number back from an output line of the given width. */
  function LineNumberOf(r: string, width: nat): nat
    requires |r| >= width + 1
    requires var field := TrimStart(r[1..width + 1]); AllDecimalDigits(field)
  {
    ParseDecimal(TrimStart(r[1..width + 1]))
  }

  /** The number in brackets is the line number printed. */
  lemma FormatLineNumber(n: nat, width: nat, line: string)
    requires Width(n) <= width
    ensures var r := FormatLine(n, width, line);
            AllDecimalDigits(TrimStart(r[1..width + 1])) && LineNumberOf(r, width) == n
  {
    var digits := DecimalDigits(n);
    var padded := PadLeft(digits, width);
    FormatLineField(n, width, line);
    assert !IsWhitespace(digits[0]);
    TrimStartPadded(Spaces(|padded| - |digits|), digits);
    ParseDecimalDigits(n);
  }

  /** `out` holds one formatted line per number, each with its line. */
  predicate IsFormatted(out: seq<string>, numbers: seq<nat>, lines: seq<string>, width: nat) {
    |out| == |numbers|
    && forall i :: 0 <= i < |out| ==>
         1 <= numbers[i] <= |lines| && out[i] == FormatLine(numbers[i], width, lines[numbers[i] - 1])
  }

  /** The output lines of a search over `lines`. */
  predicate IsOutput(out: seq<string>, pattern: string, lines: seq<string>, width: nat) {
    IsFormatted(out, MatchingNumbers(pattern, lines), lines, width)
  }

  /** Every printed number fits the width, so the brackets line up. */
  lemma NumbersFitWidth(pattern: string, lines: seq<string>, n: nat)
    requires n in MatchingNumbers(pattern, lines)
    ensures Width(n) <= Width(|lines|)
  {
    WidthMonotonic(n, |lines|);
  }

  /** One more line extends the matching numbers by its number exactly when
      it matches. */
  lemma MatchingNumbersStep(pattern: string, lines: seq<string>, i: nat)
    requires i < |lines|
    ensures MatchingNumbers(pattern, lines[..i + 1])
         == MatchingNumbers(pattern, lines[..i]) + (if Matches(lines[i], pattern) then [i + 1] else [])
  {
    assert lines[..i + 1][..i] == lines[..i];
  }

  /** Formatting against a longer list of lines changes nothing; the next
      line can be appended. */
  lemma FormattedExtend(out: seq<string>, numbers: seq<nat>, lines: seq<string>, i: nat, width: nat)
    requires i < |lines| && IsFormatted(out, numbers, lines[..i], width)
    ensures IsFormatted(out, numbers, lines[..i + 1], width)
    ensures IsFormatted(out + [FormatLine(i + 1, width, lines[i])], numbers + [i + 1], lines[..i + 1], width)
  {
    FormattedLonger(out, numbers, lines, i, width);
    assert lines[..i + 1][i] == lines[i];
    FormattedAppend(out, numbers, lines[..i + 1], i + 1, width);
  }

  /** Formatted output over a prefix stays formatted over a longer prefix. */
  lemma FormattedLonger(out: seq<string>, numbers: seq<nat>, lines: seq<string>, i: nat, width: nat)
    requires i < |lines| && IsFormatted(out, numbers, lines[..i], width)
    ensures IsFormatted(out, numbers, lines[..i + 1], width)
  {
    forall k | 0 <= k < |out|
      ensures lines[..i + 1][numbers[k] - 1] == lines[..i][numbers[k] - 1]
    {
    }
  }

  /** Appending the formatted line of line `n` keeps the output formatted. */
  lemma FormattedAppend(out: seq<string>, numbers: seq<nat>, lines: seq<string>, n: nat, width: nat)
    requires IsFormatted(out, numbers, lines, width) && 1 <= n <= |lines|
    ensures IsFormatted(out + [FormatLine(n, width, lines[n - 1])], numbers + [n], lines, width)
  {
    var out2, numbers2 := out + [FormatLine(n, width, lines[n - 1])], numbers + [n];
    forall k | 0 <= k < |out|
      ensures out2[k] == out[k] && numbers2[k] == numbers[k]
    {
    }
    assert out2[|out|] == FormatLine(n, width, lines[n - 1]) && numbers2[|out|] == n;
  }

  /** The output for one more line is the output so far plus its formatted
      line when it matches. */
  lemma OutputStep(out: seq<string>, pattern: string, lines: seq<string>, i: nat, width: nat)
    requires i < |lines| && IsOutput(out, pattern, lines[..i], width)
    ensures IsOutput(out + (if Matches(lines[i], pattern) then [FormatLine(i + 1, width, lines[i])] else []),
                     pattern, lines[..i + 1], width)
  {
    MatchingNumbersStep(pattern, lines, i);
    FormattedExtend(out, MatchingNumbers(pattern, lines[..i]), lines, i, width);
    if !Matches(lines[i], pattern) {
      assert out + [] == out;
    }
  }

  /** The search loop: one output line per matching line, in order. */
  method Grep(pattern: string, lines: seq<string>) returns (out: seq<string>)
    ensures IsOutput(out, pattern, lines, Width(|lines|))
  {
    var width := |DecimalDigits(|lines|)|;
    out := [];
    var i := 0;
    while i < |lines|
      invariant 0 <= i <= |lines|
      invariant IsOutput(out, pattern, lines[..i], width)
    {
      var found := IsMatch(lines[i], pattern);
      OutputStep(out, pattern, lines, i, width);
      if found {
        out := out + [FormatLine(i + 1, width, lines[i])];
      }
      i := i + 1;
    }
    assert lines[..i] == lines;
  }
}
