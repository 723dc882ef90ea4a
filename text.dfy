/**
 * Character classes and the string operations of Python's `str` that the
 * parser relies on: `strip()`, `splitlines()`, and the classes `\s`, `\d`,
 * `\w` and `\b` of the `re` module.
 *
 * Whitespace and line breaks are modelled exactly (both are finite sets of
 * code points); digits and word characters are modelled for ASCII only.
 */
module Text {

  /** Python's `str.isspace()`, which is also what `str.strip()` removes and what `\s` matches. */
  predicate IsSpace(c: char) {
    var n := c as int;
    (9 <= n <= 13) || (28 <= n <= 32) || n == 0x85 || n == 0xA0 || n == 0x1680
    || (0x2000 <= n <= 0x200A) || n == 0x2028 || n == 0x2029 || n == 0x202F
    || n == 0x205F || n == 0x3000
  }

  /** The characters at which `str.splitlines()` ends a line (`\r\n` counts once). */
  predicate IsLineBreak(c: char) {
    var n := c as int;
    (10 <= n <= 13) || (28 <= n <= 30) || n == 0x85 || n == 0x2028 || n == 0x2029
  }

  /** `\d`, for ASCII digits. */
  predicate IsDigit(c: char) {
    '0' <= c <= '9'
  }

  /** `\w`, for ASCII: letters, digits and the underscore. */
  predicate IsWordChar(c: char) {
    ('a' <= c <= 'z') || ('A' <= c <= 'Z') || IsDigit(c) || c == '_'
  }

  /** `\b` at position `i` of `t`: a word character on exactly one side. */
  predicate AtBoundary(t: string, i: nat) {
    i <= |t| && ((i > 0 && IsWordChar(t[i - 1])) != (i < |t| && IsWordChar(t[i])))
  }

  /** The `n` characters of `t` from position `k` on exist and all satisfy `p`. */
  predicate AllAt(t: string, k: nat, n: nat, p: char -> bool) {
    k + n <= |t| && forall j | k <= j < k + n :: p(t[j])
  }

  /** No character of `s` satisfies `p`: `re.search` for that class fails. */
  predicate NoneSatisfy(s: string, p: char -> bool) {
    forall j | 0 <= j < |s| :: !p(s[j])
  }

  function DigitValue(c: char): (v: nat)
    requires IsDigit(c)
    ensures v <= 9
  {
    (c as int) - ('0' as int)
  }

  /** `int(s)` for a non-empty run of ASCII digits. */
  function DecimalValue(s: string): nat
    requires forall j | 0 <= j < |s| :: IsDigit(s[j])
  {
    if s == [] then 0 else 10 * DecimalValue(s[..|s| - 1]) + DigitValue(s[|s| - 1])
  }

  lemma TwoDigitValue(s: string)
    requires |s| == 2 && IsDigit(s[0]) && IsDigit(s[1])
    ensures DecimalValue(s) == 10 * DigitValue(s[0]) + DigitValue(s[1])
  {
    var head := s[..1];
    assert head[..0] == [] && head[0] == s[0];
    assert DecimalValue(head) == DigitValue(s[0]);
    assert s[..|s| - 1] == head;
  }

  /** The value of the digits `t[a..b]`, one digit at a time. */
  lemma DecimalStep(t: string, a: nat, b: nat)
    requires a < b <= |t| && AllAt(t, a, b - a, IsDigit)
    ensures DecimalValue(t[a..b]) == 10 * DecimalValue(t[a..b - 1]) + DigitValue(t[b - 1])
  {
    assert t[a..b][..b - a - 1] == t[a..b - 1];
  }

  /** The value of one to four digits, written out. */
  lemma ShortDecimal(t: string, a: nat, n: nat)
    requires 1 <= n <= 4 && AllAt(t, a, n, IsDigit)
    ensures DecimalValue(t[a..a + n]) ==
      if n == 1 then DigitValue(t[a])
      else if n == 2 then 10 * DigitValue(t[a]) + DigitValue(t[a + 1])
      else if n == 3 then 100 * DigitValue(t[a]) + 10 * DigitValue(t[a + 1]) + DigitValue(t[a + 2])
      else 1000 * DigitValue(t[a]) + 100 * DigitValue(t[a + 1]) + 10 * DigitValue(t[a + 2]) + DigitValue(t[a + 3])
  {
    assert t[a..a] == [];
    DecimalStep(t, a, a + 1);
    if n >= 2 { DecimalStep(t, a, a + 2); }
    if n >= 3 { DecimalStep(t, a, a + 3); }
    if n >= 4 { DecimalStep(t, a, a + 4); }
  }

  /** The length of the longest run of characters satisfying `p` that starts at `k`. */
  function SpanFrom(t: string, k: nat, p: char -> bool): (n: nat)
    requires k <= |t|
    ensures k + n <= |t|
    ensures forall j | k <= j < k + n :: p(t[j])
    ensures k + n < |t| ==> !p(t[k + n])
    decreases |t| - k
  {
    if k < |t| && p(t[k]) then 1 + SpanFrom(t, k + 1, p) else 0
  }

  /** The length of the longest run of characters satisfying `p` at the end of `t`. */
  function SpanBack(t: string, p: char -> bool): (n: nat)
    ensures n <= |t|
    ensures forall j | |t| - n <= j < |t| :: p(t[j])
    ensures n < |t| ==> !p(t[|t| - n - 1])
  {
    if t != [] && p(t[|t| - 1]) then 1 + SpanBack(t[..|t| - 1], p) else 0
  }

  /** `str.strip()` with no argument: `rstrip` of `lstrip`. */
  function Strip(s: string): (r: string)
    ensures |r| <= |s|
    ensures r == [] || (!IsSpace(r[0]) && !IsSpace(r[|r| - 1]))
    ensures r == [] <==> forall j | 0 <= j < |s| :: IsSpace(s[j])
  {
    var left := s[SpanFrom(s, 0, IsSpace)..];
    left[..|left| - SpanBack(left, IsSpace)]
  }

  /**
   * What `strip()` keeps: the characters between the leading whitespace run
   * and the trailing one, unchanged and in place.
   */
  lemma StripKeepsMiddle(s: string)
    ensures var a := SpanFrom(s, 0, IsSpace); var r := Strip(s);
      && a + |r| <= |s|
      && r == s[a..a + |r|]
      && AllAt(s, 0, a, IsSpace)
      && forall j | a + |r| <= j < |s| :: IsSpace(s[j])
  {
    var a := SpanFrom(s, 0, IsSpace);
    var left := s[a..];
    var b := SpanBack(left, IsSpace);
    assert forall j | a + |left| - b <= j < |s| :: s[j] == left[j - a];
  }

  /**
   * `strip()` characterised: whenever `s` is whitespace, then `s[a..a + n]`
   * with no whitespace at its ends, then whitespace, the result is `s[a..a + n]`.
   */
  lemma StripUnique(s: string, a: nat, n: nat)
    requires a + n <= |s|
    requires AllAt(s, 0, a, IsSpace) && AllAt(s, a + n, |s| - a - n, IsSpace)
    requires n > 0 ==> !IsSpace(s[a]) && !IsSpace(s[a + n - 1])
    ensures Strip(s) == s[a..a + n]
  {
    if n == 0 {
      assert forall j | 0 <= j < |s| :: IsSpace(s[j]) by {
        forall j | 0 <= j < |s| ensures IsSpace(s[j]) {
          if j >= a { assert a + n <= j < a + n + (|s| - a - n); }
        }
      }
    } else {
      var m := SpanFrom(s, 0, IsSpace);
      assert m == a;
      var left := s[a..];
      var b := SpanBack(left, IsSpace);
      assert left[n - 1] == s[a + n - 1];
      assert forall j | n <= j < |left| :: IsSpace(left[j]) by {
        forall j | n <= j < |left| ensures IsSpace(left[j]) {
          assert left[j] == s[a + j];
        }
      }
      assert b == |left| - n;
      assert left[..|left| - b] == s[a..a + n];
    }
  }

  /** A string whose ends are not whitespace is left alone by `strip()`. */
  lemma StripNoop(s: string)
    requires s == [] || (!IsSpace(s[0]) && !IsSpace(s[|s| - 1]))
    ensures Strip(s) == s
  {
    if s != [] {
      assert SpanFrom(s, 0, IsSpace) == 0;
      assert SpanBack(s, IsSpace) == 0;
    }
  }

  lemma StripIdempotent(s: string)
    ensures Strip(Strip(s)) == Strip(s)
  {
    StripNoop(Strip(s));
  }

  /** The index of the first line break in `s`, or `|s|`. */
  function LineEnd(s: string): (k: nat)
    ensures k <= |s|
    ensures forall j | 0 <= j < k :: !IsLineBreak(s[j])
    ensures k < |s| ==> IsLineBreak(s[k])
  {
    SpanFrom(s, 0, c => !IsLineBreak(c))
  }

  /** `str.splitlines()`: a final line break does not start an empty line. */
  function SplitLines(s: string): (lines: seq<string>)
    ensures lines == [] <==> s == []
    ensures s != [] ==> lines[0] == s[..LineEnd(s)]
    ensures forall i, j | 0 <= i < |lines| && 0 <= j < |lines[i]| :: !IsLineBreak(lines[i][j])
    decreases |s|
  {
    if s == [] then [] else [s[..LineEnd(s)]] + SplitLines(s[NextLine(s)..])
  }

  /** Where the second line starts: past the first line break, which `\r\n` makes two characters long. */
  function NextLine(s: string): (next: nat)
    requires s != []
    ensures 0 < next <= |s| && LineEnd(s) <= next
  {
    var k := LineEnd(s);
    if k == |s| then k
    else if s[k] == '\r' && k + 1 < |s| && s[k + 1] == '\n' then k + 2
    else k + 1
  }

  /** A string with no line break is one line. */
  lemma SplitOneLine(s: string)
    requires s != [] && forall j | 0 <= j < |s| :: !IsLineBreak(s[j])
    ensures SplitLines(s) == [s]
  {
    assert LineEnd(s) == |s|;
    SplitLast(s);
  }

  /** A text whose first line runs to its end is that one line. */
  lemma SplitLast(s: string)
    requires s != [] && LineEnd(s) == |s|
    ensures SplitLines(s) == [s]
  {
    assert NextLine(s) == |s|;
    assert s[|s|..] == [] && s[..|s|] == s;
  }

  /** The first line ends at the first line break. */
  lemma LineEndAt(s: string, k: nat)
    requires k < |s| && IsLineBreak(s[k])
    requires forall j | 0 <= j < k :: !IsLineBreak(s[j])
    ensures LineEnd(s) == k
  {
  }

  /** When the first line ends at `k` with a line break other than `\r`, the next line starts right after it. */
  lemma SplitAt(s: string, k: nat)
    requires k < |s| && LineEnd(s) == k && s[k] != '\r'
    ensures SplitLines(s) == [s[..k]] + SplitLines(s[k + 1..])
  {
    assert NextLine(s) == k + 1;
  }

  /** `"\n".join(lines)`. */
  function JoinLines(lines: seq<string>): string {
    if |lines| == 0 then []
    else if |lines| == 1 then lines[0]
    else lines[0] + "\n" + JoinLines(lines[1..])
  }

  /** Lines free of line breaks, the last one non-empty, split back into themselves once joined. */
  lemma {:induction false} SplitJoinLines(lines: seq<string>)
    requires forall i | 0 <= i < |lines| :: NoneSatisfy(lines[i], IsLineBreak)
    requires lines != [] ==> lines[|lines| - 1] != []
    ensures SplitLines(JoinLines(lines)) == lines
  {
    if |lines| == 1 {
      SplitOneLine(lines[0]);
    } else if |lines| > 1 {
      var rest := lines[1..];
      assert JoinLines(lines) == lines[0] + "\n" + JoinLines(rest);
      SplitJoinStep(lines[0], JoinLines(rest));
      SplitJoinLines(rest);
      assert lines == [lines[0]] + rest;
    }
  }

  /** A first line ended by `\n` is split off, and splitting goes on with the rest. */
  lemma SplitJoinStep(head: string, rest: string)
    requires NoneSatisfy(head, IsLineBreak)
    ensures SplitLines(head + "\n" + rest) == [head] + SplitLines(rest)
  {
    var s := head + "\n" + rest;
    var k := |head|;
    assert forall j | 0 <= j < k :: s[j] == head[j];
    LineEndAt(s, k);
    SplitAt(s, k);
    assert s[..k] == head;
    assert s[k + 1..] == rest;
  }

  /** `[ln.strip() for ln in lines if ln.strip()]`. */
  function StripNonBlank(lines: seq<string>): (r: seq<string>)
    ensures forall i | 0 <= i < |r| :: r[i] != [] && Strip(r[i]) == r[i]
    ensures lines != [] && Strip(lines[0]) != [] ==> r != [] && r[0] == Strip(lines[0])
  {
    if lines == [] then []
    else
      var head := Strip(lines[0]);
      StripIdempotent(lines[0]);
      (if head != [] then [head] else []) + StripNonBlank(lines[1..])
  }

  /** A line is kept, stripped, exactly when it is not blank. */
  lemma StripNonBlankOne(line: string)
    ensures StripNonBlank([line]) == if Strip(line) != [] then [Strip(line)] else []
  {
    assert [line][1..] == [];
  }

  /** The comprehension works line by line: the lines kept from `a + b` are those kept from `a`, then from `b`. */
  lemma {:induction false} StripNonBlankAppend(a: seq<string>, b: seq<string>)
    ensures StripNonBlank(a + b) == StripNonBlank(a) + StripNonBlank(b)
  {
    if a == [] {
      assert a + b == b;
    } else {
      assert (a + b)[0] == a[0];
      assert (a + b)[1..] == a[1..] + b;
      StripNonBlankAppend(a[1..], b);
    }
  }

  /** Blank lines are all dropped. */
  lemma {:induction false} StripNonBlankDropsBlank(lines: seq<string>)
    requires forall i | 0 <= i < |lines| :: Strip(lines[i]) == []
    ensures StripNonBlank(lines) == []
  {
    if lines != [] {
      StripNonBlankDropsBlank(lines[1..]);
    }
  }

  /** The non-blank lines of `s`, each stripped, in order. */
  function NonBlankLines(s: string): (lines: seq<string>)
    ensures forall i | 0 <= i < |lines| :: lines[i] != [] && Strip(lines[i]) == lines[i]
    ensures s != [] && !IsSpace(s[0]) ==> lines != [] && lines[0] == Strip(s[..LineEnd(s)])
  {
    // when s[0] is not whitespace it is no line break either, so the first line holds it and is not blank
    assert s != [] && !IsSpace(s[0]) ==> s[..LineEnd(s)][0] == s[0];
    StripNonBlank(SplitLines(s))
  }

  /**
   * When the lines of `s` are a non-blank `first`, any number of blank lines,
   * a non-blank `second` and then anything, the first two kept lines are
   * `first` and `second`, stripped.
   */
  lemma SecondNonBlank(s: string, first: string, blanks: seq<string>, second: string, rest: seq<string>)
    requires SplitLines(s) == [first] + blanks + [second] + rest
    requires Strip(first) != [] && Strip(second) != []
    requires forall i | 0 <= i < |blanks| :: Strip(blanks[i]) == []
    ensures |NonBlankLines(s)| >= 2
    ensures NonBlankLines(s)[0] == Strip(first) && NonBlankLines(s)[1] == Strip(second)
  {
    FirstTwoKept(first, blanks, second, rest);
  }

  lemma FirstTwoKept(first: string, blanks: seq<string>, second: string, rest: seq<string>)
    requires Strip(first) != [] && Strip(second) != []
    requires forall i | 0 <= i < |blanks| :: Strip(blanks[i]) == []
    ensures StripNonBlank([first] + blanks + [second] + rest) == [Strip(first), Strip(second)] + StripNonBlank(rest)
  {
    FirstKept(first, blanks);
    KeptThenOne([first] + blanks, Strip(first), second);
    StripNonBlankAppend([first] + blanks + [second], rest);
  }

  lemma FirstKept(first: string, blanks: seq<string>)
    requires Strip(first) != []
    requires forall i | 0 <= i < |blanks| :: Strip(blanks[i]) == []
    ensures StripNonBlank([first] + blanks) == [Strip(first)]
  {
    StripNonBlankAppend([first], blanks);
    StripNonBlankOne(first);
    StripNonBlankDropsBlank(blanks);
  }

  lemma KeptThenOne(head: seq<string>, kept: string, line: string)
    requires StripNonBlank(head) == [kept] && Strip(line) != []
    ensures StripNonBlank(head + [line]) == [kept, Strip(line)]
  {
    StripNonBlankAppend(head, [line]);
    StripNonBlankOne(line);
  }
}
