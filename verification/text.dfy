/** Character classes and the few `java.lang.String` / `Integer` operations the
    mapping tools rely on, on strings as sequences of characters. */
module Text {
  import opened Wrappers

  /** `\d` in a Java regular expression: an ASCII digit. */
  predicate IsDigit(c: char) {
    '0' <= c <= '9'
  }

  /** `\w` in a Java regular expression: `[a-zA-Z_0-9]`. */
  predicate IsWordChar(c: char) {
    ('a' <= c <= 'z') || ('A' <= c <= 'Z') || IsDigit(c) || c == '_'
  }

  predicate AllDigits(s: string) {
    forall i :: 0 <= i < |s| ==> IsDigit(s[i])
  }

  predicate AllWord(s: string) {
    forall i :: 0 <= i < |s| ==> IsWordChar(s[i])
  }

  /** `Character.isWhitespace`: the Unicode space, line and paragraph separators
      except the three non-breaking spaces (U+00A0, U+2007, U+202F), plus the
      controls TAB, LF, VT, FF, CR and U+001C..U+001F. */
  predicate IsWhitespace(c: char) {
    || ('\t' <= c <= '\r')
    || ('\U{001C}' <= c <= ' ')
    || c == '\U{1680}'
    || ('\U{2000}' <= c <= '\U{2006}')
    || ('\U{2008}' <= c <= '\U{200A}')
    || c == '\U{2028}' || c == '\U{2029}' || c == '\U{205F}' || c == '\U{3000}'
  }

  /** `String.isBlank`: empty, or white space only. */
  predicate IsBlank(s: string) {
    forall i :: 0 <= i < |s| ==> IsWhitespace(s[i])
  }

  /** What `isBlank` decides for mapped names: the empty string and ordinary
      white space are blank; a no-break space is not white space in Java, so a
      name made of one is written; and no name holding a letter, a digit or
      `_` is blank. */
  lemma BlankExamples()
    ensures IsBlank("") && IsBlank(" ") && IsBlank(" \t\n") && IsBlank("\U{3000}")
    ensures !IsBlank("\U{00A0}") && !IsBlank("\U{202F}") && !IsBlank("a") && !IsBlank(" a ")
    ensures forall s: string, i :: 0 <= i < |s| && IsWordChar(s[i]) ==> !IsBlank(s)
  {
    assert !IsWhitespace("\U{00A0}"[0]);
    assert !IsWhitespace("\U{202F}"[0]);
    assert !IsWhitespace("a"[0]);
    assert !IsWhitespace(" a "[1]);
  }

  /** The range of a Java `int`. */
  const MinInt: int := -0x8000_0000
  const MaxInt: int := 0x7FFF_FFFF

  function DigitValue(c: char): (d: nat)
    requires IsDigit(c)
    ensures d <= 9
  {
    c as int - '0' as int
  }

  /** The value of a string of decimal digits, most significant first. */
  function DigitsValue(s: string): nat
    requires AllDigits(s)
  {
    if s == [] then 0 else DigitsValue(s[..|s| - 1]) * 10 + DigitValue(s[|s| - 1])
  }

  /** `Integer.parseInt(s)` (radix 10): an optional `+` or `-` sign followed by at
      least one digit, whose value fits an `int`; `None` is the
      `NumberFormatException`. */
  function ParseInt(s: string): (r: Option<int>)
    ensures r.Some? ==> MinInt <= r.value <= MaxInt
    ensures r.Some? ==> |s| > 0 && (AllDigits(s) || (|s| > 1 && (s[0] == '-' || s[0] == '+') && AllDigits(s[1..])))
    ensures |s| > 0 && AllDigits(s) ==> r == if DigitsValue(s) <= MaxInt then Some(DigitsValue(s)) else None
    ensures |s| > 1 && (s[0] == '-' || s[0] == '+') && AllDigits(s[1..]) ==>
              r == (var v: int := if s[0] == '-' then -(DigitsValue(s[1..]) as int) else DigitsValue(s[1..]);
                    if MinInt <= v <= MaxInt then Some(v) else None)
  {
    if |s| == 0 then None
    else if s[0] == '-' || s[0] == '+' then
      if |s| == 1 || !AllDigits(s[1..]) then None
      else
        var magnitude: int := DigitsValue(s[1..]);
        var v := if s[0] == '-' then -magnitude else magnitude;
        if MinInt <= v <= MaxInt then Some(v) else None
    else if AllDigits(s) then
      if DigitsValue(s) <= MaxInt then Some(DigitsValue(s)) else None
    else None
  }

  /** The signs `parseInt` accepts, and the edges of the `int` range. */
  lemma SignedExamples()
    ensures ParseInt("+2") == Some(2) && ParseInt("-1") == Some(-1) && ParseInt("-0") == Some(0)
    ensures ParseInt("-2147483648") == Some(MinInt) && ParseInt("2147483647") == Some(MaxInt)
    ensures ParseInt("2147483648") == None && ParseInt("+2147483648") == None && ParseInt("-2147483649") == None
    ensures ParseInt("") == None && ParseInt("+") == None && ParseInt("-") == None && ParseInt("1-") == None
  {
    SmallSigned();
    RangeEnds();
    PastRangeEnds();
    assert !AllDigits("1-") by { assert !IsDigit("1-"[1]); }
  }

  lemma SmallSigned()
    ensures ParseInt("+2") == Some(2) && ParseInt("-1") == Some(-1) && ParseInt("-0") == Some(0)
  {
    assert "+2"[1..] == "2" by { OneDigit('2'); }
    assert "-1"[1..] == "1" by { OneDigit('1'); }
    assert "-0"[1..] == "0" by { OneDigit('0'); }
  }

  lemma RangeEnds()
    ensures ParseInt("-2147483648") == Some(MinInt) && ParseInt("2147483647") == Some(MaxInt)
  {
    var low := "-2147483648";
    assert low[1..] == "2147483648";
    EdgeValue(low[1..]);
    EdgeValue("2147483647");
  }

  lemma PastRangeEnds()
    ensures ParseInt("2147483648") == None && ParseInt("+2147483648") == None && ParseInt("-2147483649") == None
  {
    EdgeValue("2147483648");
    EdgeValue("2147483649");
    assert "+2147483648"[1..] == "2147483648";
    assert "-2147483649"[1..] == "2147483649";
  }

  lemma OneDigit(c: char)
    requires IsDigit(c)
    ensures AllDigits([c]) && DigitsValue([c]) == DigitValue(c)
  {
    assert [c][..0] == "";
  }

  /** One more digit at the end multiplies the value by ten and adds it. */
  lemma PrefixStep(s: string, k: nat)
    requires AllDigits(s) && k < |s|
    ensures DigitsValue(s[..k + 1]) == DigitsValue(s[..k]) * 10 + DigitValue(s[k])
  {
    assert s[..k + 1][..k] == s[..k];
  }

  /** `214748364` followed by one digit, the strings at the edges of the range. */
  lemma EdgeValue(s: string)
    requires |s| == 10 && s[0] == '2' && s[1] == '1' && s[2] == '4' && s[3] == '7' && s[4] == '4'
    requires s[5] == '8' && s[6] == '3' && s[7] == '6' && s[8] == '4' && IsDigit(s[9])
    ensures AllDigits(s) && DigitsValue(s) == 2147483640 + DigitValue(s[9])
  {
    assert AllDigits(s);
    assert DigitsValue(s[..0]) == 0 by { assert s[..0] == []; }
    assert DigitsValue(s[..1]) == 2 by { PrefixStep(s, 0); }
    assert DigitsValue(s[..2]) == 21 by { PrefixStep(s, 1); }
    assert DigitsValue(s[..3]) == 214 by { PrefixStep(s, 2); }
    assert DigitsValue(s[..4]) == 2147 by { PrefixStep(s, 3); }
    assert DigitsValue(s[..5]) == 21474 by { PrefixStep(s, 4); }
    assert DigitsValue(s[..6]) == 214748 by { PrefixStep(s, 5); }
    assert DigitsValue(s[..7]) == 2147483 by { PrefixStep(s, 6); }
    assert DigitsValue(s[..8]) == 21474836 by { PrefixStep(s, 7); }
    assert DigitsValue(s[..9]) == 214748364 by { PrefixStep(s, 8); }
    PrefixStep(s, 9);
    assert s[..10] == s;
  }

  /** `Integer.toString(d)` for a single decimal digit. */
  function DigitString(d: nat): (s: string)
    requires d <= 9
    ensures ParseInt(s) == Some(d)
    ensures |s| == 1 && AllDigits(s) && !IsBlank(s) && ',' !in s
  {
    var s := [('0' as int + d) as char];
    assert DigitsValue(s) == DigitsValue(s[..0]) * 10 + d;
    s
  }

  /** `a.compareTo(b) <= 0` for `String.compareTo`: the first differing character
      decides; otherwise the shorter string comes first. */
  predicate LexLe(a: string, b: string)
    ensures a <= b ==> LexLe(a, b)
    ensures LexLe(a, b) && b <= a ==> a == b
    decreases |a|
  {
    if a == [] then true
    else if b == [] then false
    else if a[0] != b[0] then a[0] < b[0]
    else LexLe(a[1..], b[1..])
  }

  lemma {:induction false} LexLeTotal(a: string, b: string)
    ensures LexLe(a, b) || LexLe(b, a)
    decreases |a|
  {
    if a != [] && b != [] && a[0] == b[0] {
      LexLeTotal(a[1..], b[1..]);
    }
  }

  lemma {:induction false} LexLeAntisymmetric(a: string, b: string)
    requires LexLe(a, b) && LexLe(b, a)
    ensures a == b
    decreases |a|
  {
    if a != [] && b != [] {
      LexLeAntisymmetric(a[1..], b[1..]);
      assert a == [a[0]] + a[1..] && b == [b[0]] + b[1..];
    }
  }

  lemma {:induction false} LexLeTransitive(a: string, b: string, c: string)
    requires LexLe(a, b) && LexLe(b, c)
    ensures LexLe(a, c)
    decreases |a|
  {
    if a != [] && b != [] && c != [] && a[0] == b[0] == c[0] {
      LexLeTransitive(a[1..], b[1..], c[1..]);
    }
  }

  /** `String.join(",", cells)`. */
  function Join(cells: seq<string>): (line: string)
    ensures forall k, c :: 0 <= k < |cells| && c in cells[k] ==> c in line
    ensures forall c :: c in line && c != ',' ==> exists k :: 0 <= k < |cells| && c in cells[k]
    ensures |cells| >= 2 ==> ',' in line
    decreases |cells|
  {
    if |cells| == 0 then ""
    else if |cells| == 1 then cells[0]
    else cells[0] + "," + Join(cells[1..])
  }

  /** The position of the first comma of `line`, or `|line|` when it has none. */
  function CommaIndex(line: string): (i: nat)
    ensures i <= |line| && ',' !in line[..i]
    ensures i < |line| ==> line[i] == ','
  {
    if line == [] then 0
    else if line[0] == ',' then 0
    else
      var i := CommaIndex(line[1..]);
      assert line[..i + 1] == [line[0]] + line[1..][..i];
      i + 1
  }

  /** A comma-separated line cut into its cells, with no quoting: the
      reading of a line none of whose cells holds a comma. */
  function Split(line: string): (cells: seq<string>)
    ensures |cells| >= 1
    ensures forall k :: 0 <= k < |cells| ==> ',' !in cells[k]
    decreases |line|
  {
    var i := CommaIndex(line);
    if i == |line| then [line] else [line[..i]] + Split(line[i + 1..])
  }

  lemma {:induction false} CommaIndexAfterCell(cell: string, rest: string)
    requires ',' !in cell
    ensures CommaIndex(cell + "," + rest) == |cell|
  {
    if cell != [] {
      assert (cell + "," + rest)[1..] == cell[1..] + "," + rest;
      CommaIndexAfterCell(cell[1..], rest);
    }
  }

  /** Splitting a joined row gives its cells back when no cell holds a comma. */
  lemma {:induction false} SplitJoin(cells: seq<string>)
    requires |cells| >= 1
    requires forall k :: 0 <= k < |cells| ==> ',' !in cells[k]
    ensures Split(Join(cells)) == cells
  {
    if |cells| == 1 {
      assert CommaIndex(cells[0]) == |cells[0]|;
    } else {
      var line := Join(cells);
      var rest := Join(cells[1..]);
      assert line == cells[0] + "," + rest;
      CommaIndexAfterCell(cells[0], rest);
      assert line[..|cells[0]|] == cells[0];
      assert line[|cells[0]| + 1..] == rest;
      SplitJoin(cells[1..]);
      assert cells == [cells[0]] + cells[1..];
    }
  }
}
