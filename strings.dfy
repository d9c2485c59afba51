/** The parts of Python's string semantics the downloader relies on:
    `str.isspace`, `strip`/`rstrip`, `str(int)`, `int(str)`, `split`,
    `lower` and `"\n".join`. */
module PyStrings {
  import opened Wrappers

  /** The characters for which Python's `str.isspace()` holds; `strip()` and
      `int()` remove exactly these. */
  predicate IsSpace(c: char) {
    c == ' ' || ('\t' <= c <= '\r') || ('\U{1C}' <= c <= '\U{1F}')
    || c == '\U{85}' || c == '\U{A0}' || c == '\U{1680}'
    || ('\U{2000}' <= c <= '\U{200A}') || c == '\U{2028}' || c == '\U{2029}'
    || c == '\U{202F}' || c == '\U{205F}' || c == '\U{3000}'
  }

  /** `s.rstrip(...)` for the characters `drop` selects. */
  function RStripBy(s: string, drop: char -> bool): (r: string)
    ensures |r| <= |s| && r == s[..|r|]
    ensures r == [] || !drop(r[|r| - 1])
    ensures forall i :: |r| <= i < |s| ==> drop(s[i])
  {
    if s != [] && drop(s[|s| - 1]) then RStripBy(s[..|s| - 1], drop) else s
  }

  /** `s.lstrip()`: leading whitespace removed. What it guarantees is stated
      by `LStripTrims`. */
  function LStrip(s: string): string {
    if s != [] && IsSpace(s[0]) then LStrip(s[1..]) else s
  }

  /** `s.rstrip()`: trailing whitespace removed. What it guarantees is stated
      by `RStripTrims`. */
  function RStrip(s: string): string {
    if s != [] && IsSpace(s[|s| - 1]) then RStrip(s[..|s| - 1]) else s
  }

  /** `s.strip()`. */
  function Strip(s: string): string {
    RStrip(LStrip(s))
  }

  /** `lstrip()` leaves no whitespace at the front. */
  lemma {:induction false} LStripTrims(s: string)
    ensures var r := LStrip(s); r == [] || !IsSpace(r[0])
  {
    if s != [] && IsSpace(s[0]) {
      LStripTrims(s[1..]);
    }
  }

  /** `rstrip()` keeps a prefix of its input and leaves no whitespace at
      the back. */
  lemma {:induction false} RStripTrims(s: string)
    ensures var r := RStrip(s);
      |r| <= |s| && r == s[..|r|] && (r == [] || !IsSpace(r[|r| - 1]))
  {
    if s != [] && IsSpace(s[|s| - 1]) {
      var t := s[..|s| - 1];
      RStripTrims(t);
      var r := RStrip(t);
      assert r == t[..|r|];
    }
  }

  /** `strip()` leaves no whitespace at either end. */
  lemma StripTrims(s: string)
    ensures var r := Strip(s); r == [] || (!IsSpace(r[0]) && !IsSpace(r[|r| - 1]))
  {
    var l := LStrip(s);
    LStripTrims(s);
    RStripTrims(l);
    var r := RStrip(l);
    if r != [] {
      assert r[0] == l[0];
    }
  }

  /** A string with no whitespace at either end is its own `strip()`. */
  lemma StripTrimmed(s: string)
    requires s == [] || (!IsSpace(s[0]) && !IsSpace(s[|s| - 1]))
    ensures Strip(s) == s
  {
  }

  predicate IsDigit(c: char) { '0' <= c <= '9' }

  predicate AllDigits(s: string) {
    forall i :: 0 <= i < |s| ==> IsDigit(s[i])
  }

  function DigitValue(c: char): nat
    requires IsDigit(c)
  {
    c as int - '0' as int
  }

  function DigitChar(d: nat): (c: char)
    requires d < 10
    ensures IsDigit(c) && DigitValue(c) == d
  {
    ('0' as int + d) as char
  }

  /** `str(n)` for a natural number: its decimal digits, without leading zeros. */
  function Dec(n: nat): (r: string)
    ensures |r| > 0 && AllDigits(r)
    ensures r[0] == '0' ==> n == 0
  {
    if n < 10 then [DigitChar(n)] else Dec(n / 10) + [DigitChar(n % 10)]
  }

  /** The number a run of decimal digits denotes (leading zeros allowed). */
  function DigitsValue(s: string): nat
    requires AllDigits(s)
  {
    if s == [] then 0 else DigitsValue(s[..|s| - 1]) * 10 + DigitValue(s[|s| - 1])
  }

  /** Reading back the digits `str(n)` wrote gives `n`. */
  lemma {:induction false} DecValue(n: nat)
    ensures DigitsValue(Dec(n)) == n
  {
    if n >= 10 {
      DecValue(n / 10);
      var r := Dec(n);
      assert r[..|r| - 1] == Dec(n / 10);
    }
  }

  /** Different numbers print differently. */
  lemma DecInjective(a: nat, b: nat)
    ensures Dec(a) == Dec(b) ==> a == b
  {
    DecValue(a);
    DecValue(b);
  }

  /** `str(i)` for any integer. */
  function IntStr(i: int): (r: string)
  {
    if i < 0 then "-" + Dec(-i) else Dec(i)
  }

  /** The digit body `int()` accepts after the sign: digits, with single
      underscores allowed between two digits. */
  predicate Grouped(s: string) {
    && |s| > 0 && IsDigit(s[0]) && IsDigit(s[|s| - 1])
    && (forall i :: 0 <= i < |s| ==> IsDigit(s[i]) || s[i] == '_')
    && (forall i :: 0 <= i < |s| - 1 ==> IsDigit(s[i]) || IsDigit(s[i + 1]))
  }

  function DropUnderscores(s: string): (r: string)
    requires forall i :: 0 <= i < |s| ==> IsDigit(s[i]) || s[i] == '_'
    ensures AllDigits(r)
  {
    if s == [] then []
    else if s[0] == '_' then DropUnderscores(s[1..])
    else [s[0]] + DropUnderscores(s[1..])
  }

  lemma {:induction false} DropUnderscoresOfDigits(s: string)
    requires AllDigits(s)
    ensures DropUnderscores(s) == s
  {
    if s != [] {
      DropUnderscoresOfDigits(s[1..]);
    }
  }

  /** Python's `int(s)` in base 10: surrounding whitespace, an optional sign,
      then ASCII digits with single underscores between them. `None` stands
      for the `ValueError` it raises on anything else. */
  function PyInt(s: string): Option<int>
  {
    PyIntTrimmed(Strip(s))
  }

  /** `int()` of a text already stripped of surrounding whitespace. */
  function PyIntTrimmed(t: string): Option<int>
  {
    var signed := |t| > 0 && (t[0] == '+' || t[0] == '-');
    var body := if signed then t[1..] else t;
    if !Grouped(body) then None
    else
      var v: int := DigitsValue(DropUnderscores(body));
      Some(if signed && t[0] == '-' then -v else v)
  }

  /** A text without surrounding whitespace that starts with neither a sign
      nor a digit is not a number. */
  lemma PyIntRejectsNonDigit(s: string)
    requires |s| > 0 && !IsSpace(s[0]) && !IsSpace(s[|s| - 1])
    requires s[0] != '+' && s[0] != '-' && !IsDigit(s[0])
    ensures PyInt(s) == None
  {
    StripTrimmed(s);
    assert !Grouped(s);
  }

  /** `int(str(i)) == i`. */
  lemma PyIntOfIntStr(i: int)
    ensures PyInt(IntStr(i)) == Some(i)
  {
    if i >= 0 {
      PyIntOfDec(i);
    } else {
      PyIntOfNegative(i);
    }
  }

  /** A text with no whitespace at either end is parsed as it stands. */
  lemma PyIntOfTrimmed(s: string)
    requires s == [] || (!IsSpace(s[0]) && !IsSpace(s[|s| - 1]))
    ensures PyInt(s) == PyIntTrimmed(s)
  {
    StripTrimmed(s);
  }

  /** `int(str(n))` for a natural number. */
  lemma PyIntOfDec(n: nat)
    ensures PyInt(Dec(n)) == Some(n)
  {
    var s := Dec(n);
    assert IsDigit(s[0]) && IsDigit(s[|s| - 1]);
    PyIntOfTrimmed(s);
    DecTrimmed(n);
  }

  /** `int(str(i))` for a negative number. */
  lemma PyIntOfNegative(i: int)
    requires i < 0
    ensures PyInt(IntStr(i)) == Some(i)
  {
    var n: nat := -i;
    NegDecShape(n);
    assert IntStr(i) == "-" + Dec(n);
    PyIntOfTrimmed("-" + Dec(n));
    NegDecTrimmed(n);
  }

  /** `str(-n)` is a minus sign and the digits of `n`, with no whitespace at
      either end. */
  lemma NegDecShape(n: nat)
    ensures var s := "-" + Dec(n);
      && |s| > 1 && s[0] == '-' && s[1..] == Dec(n)
      && !IsSpace(s[0]) && !IsSpace(s[|s| - 1])
  {
    var d := Dec(n);
    var s := "-" + d;
    assert s[1..] == d;
    assert s[|s| - 1] == d[|d| - 1];
  }

  /** The digits of `str(n)` are read back as `n`. */
  lemma DecTrimmed(n: nat)
    ensures PyIntTrimmed(Dec(n)) == Some(n)
  {
    var t := Dec(n);
    DropUnderscoresOfDigits(t);
    DecValue(n);
    assert Grouped(t);
  }

  /** A minus sign before the digits of `str(n)` is read back as `-n`. */
  lemma NegDecTrimmed(n: nat)
    ensures PyIntTrimmed("-" + Dec(n)) == Some(-(n as int))
  {
    var d := Dec(n);
    var t := "-" + d;
    assert t[1..] == d;
    DropUnderscoresOfDigits(d);
    DecValue(n);
    assert Grouped(d);
  }

  /** `s.split(sep)[-1]`, which is also `s.rsplit(sep, 1)[-1]`: the text
      after the last `sep`, or all of `s` when it has none. */
  function LastSegment(s: string, sep: char): (r: string)
    ensures sep !in r
  {
    if s == [] || s[|s| - 1] == sep then [] else LastSegment(s[..|s| - 1], sep) + [s[|s| - 1]]
  }

  /** The last segment is a suffix of `s` and, unless it is all of `s`,
      follows a `sep`. */
  lemma {:induction false} LastSegmentSuffix(s: string, sep: char)
    ensures var r := LastSegment(s, sep);
      && |r| <= |s| && r == s[|s| - |r|..]
      && (|r| < |s| ==> s[|s| - |r| - 1] == sep)
  {
    if s != [] && s[|s| - 1] != sep {
      LastSegmentSuffix(s[..|s| - 1], sep);
    }
  }

  /** After the last `sep` comes the text that follows it. */
  lemma {:induction false} LastSegmentAfter(prefix: string, sep: char, t: string)
    requires sep !in t
    ensures LastSegment(prefix + [sep] + t, sep) == t
  {
    if t != [] {
      var n := |t| - 1;
      assert (prefix + [sep] + t)[..|prefix| + 1 + n] == prefix + [sep] + t[..n];
      LastSegmentAfter(prefix, sep, t[..n]);
    } else {
      assert (prefix + [sep] + t)[|prefix|] == sep;
    }
  }

  /** `s.split(sep)[0]`: the text before the first `sep`, or all of `s`. */
  function FirstSegment(s: string, sep: char): (r: string)
    ensures sep !in r
    ensures |r| <= |s| && r == s[..|r|]
    ensures |r| < |s| ==> s[|r|] == sep
  {
    if s == [] || s[0] == sep then [] else [s[0]] + FirstSegment(s[1..], sep)
  }

  /** Before the first `sep` comes the text that precedes it. */
  lemma {:induction false} FirstSegmentBefore(p: string, sep: char, t: string)
    requires sep !in p
    ensures FirstSegment(p + [sep] + t, sep) == p
  {
    if p != [] {
      assert (p + [sep] + t)[1..] == p[1..] + [sep] + t;
      FirstSegmentBefore(p[1..], sep, t);
    }
  }

  function LowerChar(c: char): char {
    if 'A' <= c <= 'Z' then (c as int + 32) as char else c
  }

  /** `s.lower()` on ASCII letters; every other character is kept. */
  function Lower(s: string): string {
    seq(|s|, i requires 0 <= i < |s| => LowerChar(s[i]))
  }

  /** Lower-casing a name and then taking the text after its last `.` is the
      same as lower-casing that text: lower-casing moves no dot. */
  lemma {:induction false} LowerLastSegment(s: string)
    ensures LastSegment(Lower(s), '.') == Lower(LastSegment(s, '.'))
  {
    if s == [] {
      assert Lower(s) == [];
    } else {
      var n := |s| - 1;
      var low := Lower(s);
      assert low[n] == LowerChar(s[n]);
      if s[n] != '.' {
        assert low[n] != '.';
        assert low[..n] == Lower(s[..n]);
        calc {
          LastSegment(low, '.');
          LastSegment(low[..n], '.') + [low[n]];
          { LowerLastSegment(s[..n]); }
          Lower(LastSegment(s[..n], '.')) + [LowerChar(s[n])];
          Lower(LastSegment(s[..n], '.') + [s[n]]);
        }
      }
    }
  }

  /** `"\n".join(lines)`. */
  function JoinLines(lines: seq<string>): string {
    if lines == [] then ""
    else if |lines| == 1 then lines[0]
    else lines[0] + "\n" + JoinLines(lines[1..])
  }
}
