/**
 * The string operations of the .NET base library that the AI code relies on:
 * `Int32.ToString`/`Int32.Parse` on decimal digits, `String.Contains`,
 * `String.Split(char)`, `TrimStart`/`TrimEnd` and `TextReader.ReadLine`.
 * Strings are sequences of UTF-16 code units (`char`).
 */
module Text {
  import opened Wrappers

  const Int32Min: int := -0x8000_0000
  const Int32Max: int := 0x7FFF_FFFF

  predicate IsDigit(c: char) {
    '0' <= c <= '9'
  }

  predicate AllDigits(s: string) {
    forall i :: 0 <= i < |s| ==> IsDigit(s[i])
  }

  function DigitChar(d: nat): (c: char)
    requires d < 10
    ensures IsDigit(c) && c as int - '0' as int == d
  {
    (d + '0' as int) as char
  }

  /** Decimal rendering of a non-negative integer, as `Int32.ToString()` prints it. */
  function NatToString(n: nat): (s: string)
    ensures |s| >= 1 && AllDigits(s)
    ensures s[0] == '0' ==> n == 0
    decreases n
  {
    if n < 10 then [DigitChar(n)] else NatToString(n / 10) + [DigitChar(n % 10)]
  }

  /** The value of a string of decimal digits, most significant first. */
  function DigitsValue(s: string): nat
    requires AllDigits(s)
  {
    if |s| == 0 then 0 else DigitsValue(s[..|s| - 1]) * 10 + (s[|s| - 1] as int - '0' as int)
  }

  /**
   * `Int32.Parse` on a token without surrounding white space: an optional
   * sign followed by at least one digit, failing on anything else and on
   * values outside the 32-bit range.
   */
  function ParseInt(s: string): (r: Option<int>)
    ensures r.Some? ==> Int32Min <= r.value <= Int32Max
    ensures r.Some? ==> |s| >= 1 && (IsDigit(s[0]) || s[0] == '-' || s[0] == '+')
    ensures r.Some? ==> forall i :: 1 <= i < |s| ==> IsDigit(s[i])
    ensures |s| >= 1 && AllDigits(s) && DigitsValue(s) <= Int32Max ==> r == Some(DigitsValue(s))
  {
    if |s| >= 2 && s[0] == '-' && AllDigits(s[1..]) then InInt32Range(0 - DigitsValue(s[1..]) as int)
    else if |s| >= 2 && s[0] == '+' && AllDigits(s[1..]) then InInt32Range(DigitsValue(s[1..]))
    else if |s| >= 1 && AllDigits(s) then InInt32Range(DigitsValue(s))
    else None
  }

  function InInt32Range(v: int): (r: Option<int>)
    ensures r.Some? <==> Int32Min <= v <= Int32Max
    ensures r.Some? ==> r.value == v
  {
    if Int32Min <= v <= Int32Max then Some(v) else None
  }

  lemma {:induction false} DigitsValueOfNatToString(n: nat)
    ensures DigitsValue(NatToString(n)) == n
    decreases n
  {
    var s := NatToString(n);
    if n >= 10 {
      DigitsValueOfNatToString(n / 10);
      assert s[..|s| - 1] == NatToString(n / 10);
    }
  }

  /** Parsing the rendering of a generation number gives the number back. */
  lemma ParseIntOfNatToString(n: nat)
    requires n <= Int32Max
    ensures ParseInt(NatToString(n)) == Some(n)
  {
    DigitsValueOfNatToString(n);
  }

  /** `Int32.ToString()`: a minus sign before the digits of a negative value. */
  function IntToString(n: int): (s: string)
    ensures |s| >= 1
    ensures forall i :: 0 <= i < |s| ==> IsDigit(s[i]) || s[i] == '-'
  {
    if n < 0 then "-" + NatToString(-n) else NatToString(n)
  }

  /** Parsing the rendering of a 32-bit value gives the value back. */
  lemma ParseIntOfIntToString(n: int)
    requires Int32Min <= n <= Int32Max
    ensures ParseInt(IntToString(n)) == Some(n)
  {
    if n < 0 {
      var s := IntToString(n);
      var d := NatToString(-n);
      DigitsValueOfNatToString(-n);
      assert s == "-" + d && s[1..] == d;
      assert |s| >= 2 && s[0] == '-' && AllDigits(s[1..]);
      assert 0 - DigitsValue(s[1..]) as int == n;
    } else {
      ParseIntOfNatToString(n);
    }
  }

  /** A leading zero does not change the value of a digit string. */
  lemma {:induction false} LeadingZeroValue(s: string)
    requires AllDigits(s)
    ensures AllDigits("0" + s) && DigitsValue("0" + s) == DigitsValue(s)
    decreases |s|
  {
    if |s| > 0 {
      var t := "0" + s;
      assert t[..|t| - 1] == "0" + s[..|s| - 1];
      LeadingZeroValue(s[..|s| - 1]);
    }
  }

  /**
   * `Int32.Parse` also accepts texts `ToString` never prints: a plus sign
   * and leading zeros leave the value as it is.
   */
  lemma ParseIntNonCanonical(s: string)
    requires |s| >= 1 && AllDigits(s)
    ensures ParseInt("+" + s) == ParseInt(s)
    ensures ParseInt("0" + s) == ParseInt(s)
    ensures ParseInt("-0" + s) == ParseInt("-" + s)
  {
    LeadingZeroValue(s);
    assert ("+" + s)[1..] == s;
    assert ("-" + s)[1..] == s;
    assert ("-0" + s)[1..] == "0" + s;
  }

  /** Distinct numbers render to distinct strings. */
  lemma NatToStringInjective(a: nat, b: nat)
    ensures NatToString(a) == NatToString(b) <==> a == b
  {
    if NatToString(a) == NatToString(b) {
      DigitsValueOfNatToString(a);
      DigitsValueOfNatToString(b);
    }
  }

  // ---------------------------------------------------------------------
  // Substring search
  // ---------------------------------------------------------------------

  /** `s.Contains(p)`: some window of `s` equals `p`. */
  predicate Contains(s: string, p: string)
    decreases |s|
  {
    |p| <= |s| && (s[..|p|] == p || Contains(s[1..], p))
  }

  /** A pattern with a character that the text lacks never matches. */
  lemma {:induction false} NotContainsMissingChar(s: string, p: string, c: char)
    requires c in p && c !in s
    ensures !Contains(s, p)
    decreases |s|
  {
    if |p| <= |s| {
      if s[..|p|] == p {
        assert false;
      }
      assert forall j :: 0 <= j < |s[1..]| ==> s[1..][j] == s[j + 1];
      NotContainsMissingChar(s[1..], p, c);
    }
  }

  /**
   * A match in `x + y`, for a pattern ending in `c` where `y` has no `c`,
   * lies entirely inside `x`.
   */
  lemma {:induction false} ContainsDropTail(x: string, y: string, p: string, c: char)
    requires |p| >= 1 && p[|p| - 1] == c && c !in y
    requires Contains(x + y, p)
    ensures Contains(x, p)
    decreases |x|
  {
    var s := x + y;
    if |x| == 0 {
      assert s == y;
      NotContainsMissingChar(y, p, c);
    } else if s[..|p|] == p {
      if |p| - 1 >= |x| {
        assert false;
      }
      assert x[..|p|] == s[..|p|];
    } else {
      assert s[1..] == x[1..] + y;
      ContainsDropTail(x[1..], y, p, c);
    }
  }

  /** A match in a non-empty text is its last window or lies in all but the last character. */
  lemma {:induction false} ContainsLastOrInit(s: string, p: string)
    requires |p| >= 1 && Contains(s, p)
    ensures s[|s| - |p|..] == p || Contains(s[..|s| - 1], p)
    decreases |s|
  {
    if s[..|p|] == p {
      if |s| == |p| {
        assert s[|s| - |p|..] == s[..|p|];
      } else {
        assert s[..|s| - 1][..|p|] == p;
      }
    } else {
      ContainsLastOrInit(s[1..], p);
      assert s[1..][|s[1..]| - |p|..] == s[|s| - |p|..];
      if Contains(s[1..][..|s[1..]| - 1], p) {
        assert s[1..][..|s[1..]| - 1] == s[..|s| - 1][1..];
      }
    }
  }

  /**
   * A pattern ending in `c` cannot match across a suffix `q` that ends in `c`,
   * holds no other `c`, and whose last window is not the pattern.
   */
  lemma ContainsDropMarkedTail(x: string, q: string, p: string, c: char)
    requires |p| >= 1 && p[|p| - 1] == c
    requires |p| <= |q| && q[|q| - 1] == c && c !in q[..|q| - 1]
    requires q[|q| - |p|..] != p
    requires Contains(x + q, p)
    ensures Contains(x, p)
  {
    var s := x + q;
    ContainsLastOrInit(s, p);
    assert s[|s| - |p|..] == q[|q| - |p|..];
    assert s[..|s| - 1] == x + q[..|q| - 1];
    ContainsDropTail(x, q[..|q| - 1], p, c);
  }

  lemma ContainsPrefix(s: string, p: string)
    requires |p| <= |s| && s[..|p|] == p
    ensures Contains(s, p)
  {
  }

  /** A text contains every piece it is built around. */
  lemma {:induction false} ContainsInfix(x: string, p: string, y: string)
    ensures Contains(x + p + y, p)
    decreases |x|
  {
    var s := x + p + y;
    if |x| == 0 {
      assert s[..|p|] == p;
    } else {
      assert s[1..] == x[1..] + p + y;
      ContainsInfix(x[1..], p, y);
    }
  }

  // ---------------------------------------------------------------------
  // Splitting and joining
  // ---------------------------------------------------------------------

  /**
   * `s.Split(seps)`: the pieces between separator characters, empty pieces
   * included, so there is always one more piece than separators.
   */
  function Split(s: string, seps: set<char>): (r: seq<string>)
    ensures |r| == Occurrences(s, seps) + 1
    decreases |s|
  {
    if |s| == 0 then [""]
    else if s[0] in seps then [""] + Split(s[1..], seps)
    else
      var rest := Split(s[1..], seps);
      [[s[0]] + rest[0]] + rest[1..]
  }

  /** How many characters of `s` are in `cs`. */
  function Occurrences(s: string, cs: set<char>): nat
    decreases |s|
  {
    if |s| == 0 then 0 else (if s[0] in cs then 1 else 0) + Occurrences(s[1..], cs)
  }

  lemma {:induction false} OccurrencesAppend(a: string, b: string, cs: set<char>)
    ensures Occurrences(a + b, cs) == Occurrences(a, cs) + Occurrences(b, cs)
    decreases |a|
  {
    if |a| > 0 {
      assert (a + b)[1..] == a[1..] + b;
      OccurrencesAppend(a[1..], b, cs);
    } else {
      assert a + b == b;
    }
  }

  lemma {:induction false} OccurrencesNone(s: string, c: char)
    requires c !in s
    ensures Occurrences(s, {c}) == 0
    decreases |s|
  {
    if |s| > 0 {
      OccurrencesNone(s[1..], c);
    }
  }

  /** The separator-joined text of `tokens` (the inverse of `Split`): it starts with the first token. */
  function Join(tokens: seq<string>, sep: char): (r: string)
    requires |tokens| >= 1
    ensures tokens[0] <= r
    decreases |tokens|
  {
    if |tokens| == 1 then tokens[0] else tokens[0] + [sep] + Join(tokens[1..], sep)
  }

  /** When no token holds the separator, the joined text holds exactly one between each two tokens. */
  lemma {:induction false} JoinOccurrences(tokens: seq<string>, sep: char)
    requires |tokens| >= 1 && forall k :: 0 <= k < |tokens| ==> sep !in tokens[k]
    ensures Occurrences(Join(tokens, sep), {sep}) == |tokens| - 1
    decreases |tokens|
  {
    OccurrencesNone(tokens[0], sep);
    if |tokens| > 1 {
      assert forall k :: 0 <= k < |tokens| - 1 ==> tokens[1..][k] == tokens[k + 1];
      JoinOccurrences(tokens[1..], sep);
      OccurrencesAppend(tokens[0], [sep], {sep});
      OccurrencesAppend(tokens[0] + [sep], Join(tokens[1..], sep), {sep});
    }
  }

  /** Joining the pieces of a split on one separator gives the text back. */
  lemma {:induction false} JoinSplit(s: string, sep: char)
    ensures Join(Split(s, {sep}), sep) == s
    decreases |s|
  {
    if |s| > 0 {
      var rest := Split(s[1..], {sep});
      JoinSplit(s[1..], sep);
      if s[0] == sep {
        assert Split(s, {sep}) == [""] + rest;
        assert ([""] + rest)[1..] == rest;
        assert s == [sep] + s[1..];
      } else {
        var r := Split(s, {sep});
        assert r == [[s[0]] + rest[0]] + rest[1..];
        if |rest| == 1 {
          assert s == [s[0]] + s[1..];
        } else {
          assert r[1..] == rest[1..];
          assert Join(rest, sep) == rest[0] + [sep] + Join(rest[1..], sep);
          assert s == [s[0]] + s[1..];
        }
      }
    }
  }

  /** No piece of a split contains a separator. */
  lemma {:induction false} SplitPiecesFree(s: string, seps: set<char>)
    ensures forall k, j :: 0 <= k < |Split(s, seps)| && 0 <= j < |Split(s, seps)[k]| ==> Split(s, seps)[k][j] !in seps
    decreases |s|
  {
    if |s| > 0 {
      SplitPiecesFree(s[1..], seps);
    }
  }

  lemma {:induction false} SplitPrefixToken(t: string, sep: char, rest: string)
    requires sep !in t
    ensures Split(t + [sep] + rest, {sep}) == [t] + Split(rest, {sep})
    decreases |t|
  {
    if |t| == 0 {
      assert t + [sep] + rest == [sep] + rest;
      assert ([sep] + rest)[1..] == rest;
    } else {
      var s := t + [sep] + rest;
      assert s[1..] == t[1..] + [sep] + rest;
      SplitPrefixToken(t[1..], sep, rest);
      assert [t[0]] + t[1..] == t;
    }
  }

  lemma {:induction false} SplitSingleToken(t: string, sep: char)
    requires sep !in t
    ensures Split(t, {sep}) == [t]
    decreases |t|
  {
    if |t| > 0 {
      SplitSingleToken(t[1..], sep);
      assert [t[0]] + t[1..] == t;
    }
  }

  /** Splitting a joined list of separator-free tokens gives the tokens back. */
  lemma {:induction false} SplitJoin(tokens: seq<string>, sep: char)
    requires |tokens| >= 1
    requires forall k :: 0 <= k < |tokens| ==> sep !in tokens[k]
    ensures Split(Join(tokens, sep), {sep}) == tokens
    decreases |tokens|
  {
    if |tokens| == 1 {
      SplitSingleToken(tokens[0], sep);
    } else {
      SplitPrefixToken(tokens[0], sep, Join(tokens[1..], sep));
      SplitJoin(tokens[1..], sep);
    }
  }

  /** A match of a pattern without `c` in `a + [c] + b` lies in `a` or in `b`. */
  lemma {:induction false} ContainsAround(a: string, c: char, b: string, p: string)
    requires c !in p && Contains(a + [c] + b, p)
    ensures Contains(a, p) || Contains(b, p)
    decreases |a|
  {
    var s := a + [c] + b;
    if s[..|p|] == p {
      WindowPastPrefix(a, c, b, |p|);
      assert a[..|p|] == s[..|p|];
    } else if |a| == 0 {
      assert s[1..] == b;
    } else {
      assert s[1..] == a[1..] + [c] + b;
      ContainsAround(a[1..], c, b, p);
    }
  }

  /** A window of `a + [c] + b` longer than `a` holds `c`. */
  lemma WindowPastPrefix(a: string, c: char, b: string, n: nat)
    requires n <= |a| + 1 + |b|
    ensures n > |a| ==> c in (a + [c] + b)[..n]
  {
    if n > |a| {
      assert (a + [c] + b)[..n][|a|] == c;
    }
  }

  /** A pattern without the separator, found in no token, is not found in their join. */
  lemma {:induction false} JoinLacks(tokens: seq<string>, sep: char, p: string)
    requires |tokens| >= 1 && sep !in p
    requires forall k :: 0 <= k < |tokens| ==> !Contains(tokens[k], p)
    ensures !Contains(Join(tokens, sep), p)
    decreases |tokens|
  {
    if |tokens| > 1 {
      JoinLacks(tokens[1..], sep, p);
      if Contains(Join(tokens, sep), p) {
        ContainsAround(tokens[0], sep, Join(tokens[1..], sep), p);
        assert false;
      }
    }
  }

  /** The join of non-empty tokens starts with the first token's first character and ends with the last's last. */
  lemma {:induction false} JoinEnds(tokens: seq<string>, sep: char)
    requires |tokens| >= 1
    requires forall k :: 0 <= k < |tokens| ==> |tokens[k]| > 0
    ensures |Join(tokens, sep)| > 0
    ensures Join(tokens, sep)[0] == tokens[0][0]
    ensures Join(tokens, sep)[|Join(tokens, sep)| - 1] == tokens[|tokens| - 1][|tokens[|tokens| - 1]| - 1]
    decreases |tokens|
  {
    if |tokens| > 1 {
      JoinEnds(tokens[1..], sep);
    }
  }

  // ---------------------------------------------------------------------
  // White space and lines
  // ---------------------------------------------------------------------

  /** `Char.IsWhiteSpace`: the Unicode white-space characters. */
  predicate IsWhiteSpace(c: char) {
    var u := c as int;
    u == 0x20 || (0x09 <= u <= 0x0D) || u == 0x85 || u == 0xA0 || u == 0x1680
    || (0x2000 <= u <= 0x200A) || u == 0x2028 || u == 0x2029 || u == 0x202F
    || u == 0x205F || u == 0x3000
  }

  function TrimStart(s: string): (r: string)
    ensures |r| <= |s| && r == s[|s| - |r|..]
    ensures |r| > 0 ==> !IsWhiteSpace(r[0])
    ensures forall i :: 0 <= i < |s| - |r| ==> IsWhiteSpace(s[i])
    decreases |s|
  {
    if |s| > 0 && IsWhiteSpace(s[0]) then TrimStart(s[1..]) else s
  }

  function TrimEnd(s: string): (r: string)
    ensures |r| <= |s| && r == s[..|r|]
    ensures |r| > 0 ==> !IsWhiteSpace(r[|r| - 1])
    ensures forall i :: |r| <= i < |s| ==> IsWhiteSpace(s[i])
    decreases |s|
  {
    if |s| > 0 && IsWhiteSpace(s[|s| - 1]) then TrimEnd(s[..|s| - 1]) else s
  }

  /** `s.TrimStart().TrimEnd()`. */
  function Trim(s: string): string {
    TrimEnd(TrimStart(s))
  }

  /** A text without white space at either end is its own trim. */
  lemma TrimOfTrimmed(s: string)
    requires |s| > 0 ==> !IsWhiteSpace(s[0]) && !IsWhiteSpace(s[|s| - 1])
    ensures Trim(s) == s
  {
  }

  predicate IsLineBreak(c: char) {
    c == '\n' || c == '\r'
  }

  /** Index of the first line break at or after `i`, or `|t|`. */
  function LineEnd(t: string, i: nat): (k: nat)
    requires i <= |t|
    ensures i <= k <= |t|
    ensures k < |t| ==> IsLineBreak(t[k])
    ensures forall j :: i <= j < k ==> !IsLineBreak(t[j])
    decreases |t| - i
  {
    if i == |t| || IsLineBreak(t[i]) then i else LineEnd(t, i + 1)
  }

  /**
   * The lines `TextReader.ReadLine` returns, in order, until it returns null:
   * a line ends at "\n", "\r" or "\r\n", and a final line without a
   * terminator is still returned.
   */
  function ReadLines(t: string): (lines: seq<string>)
    ensures |t| > 0 <==> |lines| >= 1
    ensures |lines| <= |t|
    decreases |t|
  {
    if |t| == 0 then []
    else
      var k := LineEnd(t, 0);
      if k == |t| then [t]
      else if t[k] == '\r' && k + 1 < |t| && t[k + 1] == '\n' then [t[..k]] + ReadLines(t[k + 2..])
      else [t[..k]] + ReadLines(t[k + 1..])
  }

  predicate NoLineBreak(s: string) {
    forall j :: 0 <= j < |s| ==> !IsLineBreak(s[j])
  }

  /** No line read holds a line break. */
  lemma {:induction false} ReadLinesHaveNoBreak(t: string)
    ensures forall k :: 0 <= k < |ReadLines(t)| ==> NoLineBreak(ReadLines(t)[k])
    decreases |t|
  {
    if |t| > 0 {
      var k := LineEnd(t, 0);
      if k < |t| {
        var rest := if t[k] == '\r' && k + 1 < |t| && t[k + 1] == '\n' then t[k + 2..] else t[k + 1..];
        ReadLinesHaveNoBreak(rest);
        assert ReadLines(t) == [t[..k]] + ReadLines(rest);
      }
    }
  }

  /** The two line terminators `TextWriter.WriteLine` may emit. */
  predicate IsNewLine(nl: string) {
    nl == "\n" || nl == "\r\n"
  }

  /** The first line break of `t` is at `m` when `t[..m]` has none and `t[m]` is one. */
  lemma LineEndAt(t: string, m: nat)
    requires m <= |t| && NoLineBreak(t[..m])
    requires m < |t| ==> IsLineBreak(t[m])
    ensures LineEnd(t, 0) == m
  {
    var k := LineEnd(t, 0);
    assert forall j :: 0 <= j < m ==> t[..m][j] == t[j];
  }

  /** A terminated line is read back as that line, followed by the lines of the rest. */
  lemma ReadLinesCons(line: string, nl: string, rest: string)
    requires NoLineBreak(line) && IsNewLine(nl)
    ensures ReadLines(line + nl + rest) == [line] + ReadLines(rest)
    ensures ReadLines(line + (nl + rest)) == [line] + ReadLines(rest)
  {
    var t := line + nl + rest;
    assert t == line + (nl + rest);
    assert t[..|line|] == line;
    LineEndAt(t, |line|);
    if nl == "\n" {
      assert t[|line| + 1..] == rest;
    } else {
      assert t[|line|] == '\r' && t[|line| + 1] == '\n';
      assert t[|line| + 2..] == rest;
    }
  }

  /** A leading "\n" is read back as an empty line. */
  lemma ReadLinesEmptyFirst(rest: string)
    ensures ReadLines("\n" + rest) == [""] + ReadLines(rest)
  {
    assert "" + "\n" + rest == "\n" + rest;
    ReadLinesCons("", "\n", rest);
  }

  /** A final line without terminator is read back as that line. */
  lemma ReadLinesLast(line: string)
    requires NoLineBreak(line) && |line| > 0
    ensures ReadLines(line) == [line]
  {
    assert line[..|line|] == line;
    LineEndAt(line, |line|);
  }
}
