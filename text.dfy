/**
 * String helpers shared by the Python seed scripts and the TypeScript code:
 * quote doubling (the SQL rule for quotes inside a character-string literal),
 * whitespace trimming with Python's and JavaScript's whitespace sets,
 * single-character split/join, prefix and substring tests, ASCII lower-casing
 * and decimal rendering of integers.
 */
module Text {

  /** Number of occurrences of `c` in `s`. */
  function Count(s: string, c: char): nat
  {
    if s == [] then 0 else (if s[0] == c then 1 else 0) + Count(s[1..], c)
  }

  lemma CountAppend(a: string, b: string, c: char)
    ensures Count(a + b, c) == Count(a, c) + Count(b, c)
  {
    if a == [] {
      assert a + b == b;
    } else {
      assert (a + b)[1..] == a[1..] + b;
      CountAppend(a[1..], b, c);
    }
  }

  lemma {:induction false} CountAbsent(s: string, c: char)
    requires c !in s
    ensures Count(s, c) == 0
  {
    if s != [] {
      CountAbsent(s[1..], c);
    }
  }

  /** Every occurrence of `c` written twice: `Replace(c, cc)`. */
  function Double(s: string, c: char): string
  {
    if s == [] then []
    else (if s[0] == c then [c, c] else [s[0]]) + Double(s[1..], c)
  }

  /** Doubling adds one character per occurrence, and the occurrences double. */
  lemma {:induction false} DoubleCounts(s: string, c: char)
    ensures |Double(s, c)| == |s| + Count(s, c)
    ensures Count(Double(s, c), c) == 2 * Count(s, c)
  {
    if s != [] {
      DoubleCounts(s[1..], c);
      var h := if s[0] == c then [c, c] else [s[0]];
      CountAppend(h, Double(s[1..], c), c);
    }
  }

  /** Reads a doubled text back: a pair `cc` becomes one `c`, every other character is kept. */
  function Undouble(s: string, c: char): string
  {
    if s == [] then []
    else if |s| >= 2 && s[0] == c && s[1] == c then [c] + Undouble(s[2..], c)
    else [s[0]] + Undouble(s[1..], c)
  }

  lemma {:induction false} UndoubleDouble(s: string, c: char)
    ensures Undouble(Double(s, c), c) == s
  {
    if s != [] {
      UndoubleDouble(s[1..], c);
      var d := Double(s, c);
      if s[0] == c {
        assert d == [c, c] + Double(s[1..], c);
        assert d[2..] == Double(s[1..], c);
      } else {
        assert d == [s[0]] + Double(s[1..], c);
        assert d[1..] == Double(s[1..], c);
      }
    }
  }

  lemma {:induction false} DoubleAppend(a: string, b: string, c: char)
    ensures Double(a + b, c) == Double(a, c) + Double(b, c)
  {
    if a == [] {
      assert a + b == b;
    } else {
      assert (a + b)[1..] == a[1..] + b;
      DoubleAppend(a[1..], b, c);
    }
  }

  lemma {:induction false} DoubleIdentity(s: string, c: char)
    requires c !in s
    ensures Double(s, c) == s
  {
    if s != [] {
      DoubleIdentity(s[1..], c);
    }
  }

  lemma {:induction false} DoubleKeepsOthers(s: string, c: char, x: char)
    requires x != c
    ensures (x in Double(s, c)) <==> (x in s)
  {
    if s != [] {
      DoubleKeepsOthers(s[1..], c, x);
      assert s == [s[0]] + s[1..];
    }
  }

  /** Doubling one character leaves the number of any other character unchanged. */
  lemma {:induction false} DoubleCountOther(s: string, c: char, x: char)
    requires x != c
    ensures Count(Double(s, c), x) == Count(s, x)
  {
    if s != [] {
      DoubleCountOther(s[1..], c, x);
      var h := if s[0] == c then [c, c] else [s[0]];
      CountAppend(h, Double(s[1..], c), x);
    }
  }

  /** Every `from` replaced by `to`, position by position. */
  function ReplaceChar(s: string, from: char, to: char): string
  {
    if s == [] then [] else [if s[0] == from then to else s[0]] + ReplaceChar(s[1..], from, to)
  }

  lemma {:induction false} ReplaceCharAt(s: string, from: char, to: char)
    ensures |ReplaceChar(s, from, to)| == |s|
    ensures forall i :: 0 <= i < |s| ==> ReplaceChar(s, from, to)[i] == (if s[i] == from then to else s[i])
  {
    if s != [] {
      ReplaceCharAt(s[1..], from, to);
      assert forall i :: 1 <= i < |s| ==> ReplaceChar(s, from, to)[i] == ReplaceChar(s[1..], from, to)[i - 1];
    }
  }

  lemma {:induction false} ReplaceCharIdentity(s: string, from: char, to: char)
    requires from !in s
    ensures ReplaceChar(s, from, to) == s
  {
    if s != [] {
      ReplaceCharIdentity(s[1..], from, to);
    }
  }

  lemma ReplaceCharRemoves(s: string, from: char, to: char)
    requires from != to
    ensures from !in ReplaceChar(s, from, to)
  {
    ReplaceCharAt(s, from, to);
    var r := ReplaceChar(s, from, to);
    forall i | 0 <= i < |r| ensures r[i] != from {
    }
  }

  // ---------------------------------------------------------------- whitespace

  /** Python's `str.isspace` set, the set `str.strip()` removes. */
  predicate PyIsSpace(c: char)
  {
    c == '\t' || c == '\n' || c == '\U{000B}' || c == '\U{000C}' || c == '\r'
    || ('\U{001C}' <= c <= '\U{001F}') || c == ' ' || c == '\U{0085}' || c == '\U{00A0}'
    || c == '\U{1680}' || ('\U{2000}' <= c <= '\U{200A}') || c == '\U{2028}' || c == '\U{2029}'
    || c == '\U{202F}' || c == '\U{205F}' || c == '\U{3000}'
  }

  /** ECMAScript WhiteSpace and LineTerminator, the set `String.prototype.trim` removes. */
  predicate JsIsSpace(c: char)
  {
    c == '\t' || c == '\n' || c == '\U{000B}' || c == '\U{000C}' || c == '\r'
    || c == ' ' || c == '\U{00A0}' || c == '\U{FEFF}'
    || c == '\U{1680}' || ('\U{2000}' <= c <= '\U{200A}') || c == '\U{2028}' || c == '\U{2029}'
    || c == '\U{202F}' || c == '\U{205F}' || c == '\U{3000}'
  }

  function StripLeft(s: string, isSpace: char -> bool): (r: string)
    ensures |r| <= |s|
    ensures r == [] || !isSpace(r[0])
  {
    if s != [] && isSpace(s[0]) then StripLeft(s[1..], isSpace) else s
  }

  function StripRight(s: string, isSpace: char -> bool): (r: string)
    ensures |r| <= |s|
    ensures r == [] || !isSpace(r[|r| - 1])
  {
    if s != [] && isSpace(s[|s| - 1]) then StripRight(s[..|s| - 1], isSpace) else s
  }

  /** Both ends trimmed: the shape shared by Python `strip()` and JavaScript `trim()`. */
  function Strip(s: string, isSpace: char -> bool): (r: string)
    ensures |r| <= |s|
  {
    StripRight(StripLeft(s, isSpace), isSpace)
  }

  /** A trimmed text neither starts nor ends with whitespace. */
  lemma StripEdges(s: string, isSpace: char -> bool)
    ensures var r := Strip(s, isSpace); r == [] || (!isSpace(r[0]) && !isSpace(r[|r| - 1]))
  {
    StripRightRemovesSpaces(StripLeft(s, isSpace), isSpace);
  }

  function PyStrip(s: string): string { Strip(s, PyIsSpace) }

  function JsTrim(s: string): string { Strip(s, JsIsSpace) }

  /** Trimming the front removes a prefix made only of whitespace. */
  lemma {:induction false} StripLeftRemovesSpaces(s: string, isSpace: char -> bool)
    ensures StripLeft(s, isSpace) == s[|s| - |StripLeft(s, isSpace)|..]
    ensures forall i :: 0 <= i < |s| - |StripLeft(s, isSpace)| ==> isSpace(s[i])
  {
    if s != [] && isSpace(s[0]) {
      StripLeftRemovesSpaces(s[1..], isSpace);
    }
  }

  /** Trimming the back removes a suffix made only of whitespace. */
  lemma {:induction false} StripRightRemovesSpaces(s: string, isSpace: char -> bool)
    ensures StripRight(s, isSpace) == s[..|StripRight(s, isSpace)|]
    ensures forall i :: |StripRight(s, isSpace)| <= i < |s| ==> isSpace(s[i])
  {
    if s != [] && isSpace(s[|s| - 1]) {
      StripRightRemovesSpaces(s[..|s| - 1], isSpace);
    }
  }

  /** Trimming only removes characters, so a character absent before stays absent. */
  lemma StripKeepsOut(s: string, x: char, isSpace: char -> bool)
    requires x !in s
    ensures x !in Strip(s, isSpace)
  {
    var l := StripLeft(s, isSpace);
    StripLeftRemovesSpaces(s, isSpace);
    assert forall i :: 0 <= i < |l| ==> l[i] == s[|s| - |l| + i];
    var r := StripRight(l, isSpace);
    StripRightRemovesSpaces(l, isSpace);
    assert forall i :: 0 <= i < |r| ==> r[i] == l[i];
  }

  lemma StripFixed(s: string, isSpace: char -> bool)
    requires s == [] || (!isSpace(s[0]) && !isSpace(s[|s| - 1]))
    ensures Strip(s, isSpace) == s
  {
  }

  lemma {:induction false} StripLeftDouble(s: string, c: char, isSpace: char -> bool)
    requires !isSpace(c)
    ensures StripLeft(Double(s, c), isSpace) == Double(StripLeft(s, isSpace), c)
  {
    if s != [] && isSpace(s[0]) {
      assert Double(s, c) == [s[0]] + Double(s[1..], c);
      assert Double(s, c)[1..] == Double(s[1..], c);
      StripLeftDouble(s[1..], c, isSpace);
    }
  }

  lemma {:induction false} StripRightDouble(s: string, c: char, isSpace: char -> bool)
    requires !isSpace(c)
    ensures StripRight(Double(s, c), isSpace) == Double(StripRight(s, isSpace), c)
    decreases |s|
  {
    if s != [] {
      var init := s[..|s| - 1];
      var last := s[|s| - 1];
      assert s == init + [last];
      DoubleAppend(init, [last], c);
      assert Double([last], c) == (if last == c then [c, c] else [last]);
      if isSpace(last) {
        var d := Double(s, c);
        assert d == Double(init, c) + [last];
        assert d[..|d| - 1] == Double(init, c);
        StripRightDouble(init, c, isSpace);
      }
    }
  }

  /** Doubling a non-space character commutes with trimming. */
  lemma StripDouble(s: string, c: char, isSpace: char -> bool)
    requires !isSpace(c)
    ensures Strip(Double(s, c), isSpace) == Double(Strip(s, isSpace), c)
  {
    StripLeftDouble(s, c, isSpace);
    StripRightDouble(StripLeft(s, isSpace), c, isSpace);
  }

  // ---------------------------------------------------------------- split / join

  /**
   * `s.split(sep)` for a one-character separator, as in both JavaScript and
   * Python: the pieces between separators, so "" gives [""] and "a," gives ["a", ""].
   */
  function Split(s: string, sep: char): (r: seq<string>)
    ensures |r| >= 1
    ensures forall i :: 0 <= i < |r| ==> sep !in r[i]
  {
    if s == [] then [[]]
    else if s[0] == sep then [[]] + Split(s[1..], sep)
    else
      var rest := Split(s[1..], sep);
      [[s[0]] + rest[0]] + rest[1..]
  }

  /** `parts.join(sep)`. */
  function Join(parts: seq<string>, sep: string): string
  {
    if |parts| == 0 then []
    else if |parts| == 1 then parts[0]
    else parts[0] + sep + Join(parts[1..], sep)
  }

  lemma {:induction false} JoinSplit(s: string, sep: char)
    ensures Join(Split(s, sep), [sep]) == s
  {
    if s != [] {
      JoinSplit(s[1..], sep);
      var rest := Split(s[1..], sep);
      assert s == [s[0]] + s[1..];
      if s[0] == sep {
        var parts := [[]] + rest;
        assert parts[1..] == rest;
        assert Join(parts, [sep]) == [] + [sep] + Join(rest, [sep]);
      } else {
        var parts := [[s[0]] + rest[0]] + rest[1..];
        if |rest| >= 2 {
          assert Join(rest, [sep]) == rest[0] + [sep] + Join(rest[1..], [sep]);
          assert parts[1..] == rest[1..];
          assert Join(parts, [sep]) == [s[0]] + rest[0] + [sep] + Join(rest[1..], [sep]);
        } else {
          assert Join(parts, [sep]) == [s[0]] + rest[0];
        }
      }
    }
  }

  lemma {:induction false} SplitNoSep(a: string, sep: char)
    requires sep !in a
    ensures Split(a, sep) == [a]
  {
    if a != [] {
      assert a == [a[0]] + a[1..];
      SplitNoSep(a[1..], sep);
    }
  }

  lemma {:induction false} SplitAfterPiece(a: string, b: string, sep: char)
    requires sep !in a
    ensures Split(a + [sep] + b, sep) == [a] + Split(b, sep)
  {
    if a == [] {
      assert (a + [sep] + b)[1..] == b;
    } else {
      assert a == [a[0]] + a[1..];
      assert (a + [sep] + b)[1..] == a[1..] + [sep] + b;
      SplitAfterPiece(a[1..], b, sep);
    }
  }

  lemma {:induction false} SplitJoin(parts: seq<string>, sep: char)
    requires |parts| >= 1
    requires forall i :: 0 <= i < |parts| ==> sep !in parts[i]
    ensures Split(Join(parts, [sep]), sep) == parts
  {
    if |parts| == 1 {
      SplitNoSep(parts[0], sep);
    } else {
      SplitJoin(parts[1..], sep);
      SplitAfterPiece(parts[0], Join(parts[1..], [sep]), sep);
    }
  }

  lemma {:induction false} JoinAppend(parts: seq<string>, x: string, sep: string)
    requires |parts| >= 1
    ensures Join(parts + [x], sep) == Join(parts, sep) + sep + x
  {
    if |parts| == 1 {
      assert (parts + [x])[1..] == [x];
    } else {
      assert (parts + [x])[1..] == parts[1..] + [x];
      JoinAppend(parts[1..], x, sep);
    }
  }

  lemma {:induction false} JoinLength(parts: seq<string>, sep: string)
    requires |parts| >= 1
    ensures |Join(parts, sep)| >= (|parts| - 1) * |sep|
  {
    if |parts| > 1 {
      JoinLength(parts[1..], sep);
    }
  }

  // ---------------------------------------------------------------- prefix / substring

  predicate StartsWith(s: string, prefix: string)
  {
    |prefix| <= |s| && s[..|prefix|] == prefix
  }

  predicate EndsWith(s: string, suffix: string)
  {
    |suffix| <= |s| && s[|s| - |suffix|..] == suffix
  }

  lemma EndsWithAppend(a: string, b: string)
    ensures EndsWith(a + b, b)
  {
    assert (a + b)[|a|..] == b;
  }

  /** `s.includes(sub)`: `sub` occurs at some position of `s`. */
  predicate Contains(s: string, sub: string)
    decreases |s|
  {
    StartsWith(s, sub) || (s != [] && Contains(s[1..], sub))
  }

  lemma {:induction false} ContainsAt(s: string, sub: string, k: nat)
    requires k + |sub| <= |s| && s[k..k + |sub|] == sub
    ensures Contains(s, sub)
  {
    if k > 0 {
      assert s[1..][k - 1..k - 1 + |sub|] == s[k..k + |sub|];
      ContainsAt(s[1..], sub, k - 1);
    }
  }

  lemma {:induction false} ContainsWitness(s: string, sub: string) returns (k: nat)
    requires Contains(s, sub)
    ensures k + |sub| <= |s| && s[k..k + |sub|] == sub
  {
    if StartsWith(s, sub) {
      k := 0;
    } else {
      var k' := ContainsWitness(s[1..], sub);
      k := k' + 1;
      assert s[1..][k'..k' + |sub|] == s[k..k + |sub|];
    }
  }

  // ---------------------------------------------------------------- lower case

  /**
   * `toLowerCase` of one character: ASCII capitals, plus the two non-ASCII
   * characters whose lower case contains ASCII letters (KELVIN SIGN becomes
   * 'k'; LATIN CAPITAL LETTER I WITH DOT ABOVE becomes 'i' and a combining
   * dot). Other characters are kept.
   */
  function LowerChar(c: char): string
  {
    if 'A' <= c <= 'Z' then [(c as int + 32) as char]
    else if c == '\U{212A}' then "k"
    else if c == '\U{0130}' then "i\U{0307}"
    else [c]
  }

  function Lower(s: string): string
  {
    if s == [] then [] else LowerChar(s[0]) + Lower(s[1..])
  }

  lemma {:induction false} LowerAppend(a: string, b: string)
    ensures Lower(a + b) == Lower(a) + Lower(b)
  {
    if a == [] {
      assert a + b == b;
    } else {
      assert (a + b)[1..] == a[1..] + b;
      LowerAppend(a[1..], b);
    }
  }

  /** Lower-casing twice is lower-casing once. */
  lemma {:induction false} LowerIdempotent(s: string)
    ensures Lower(Lower(s)) == Lower(s)
  {
    if s != [] {
      var h := LowerChar(s[0]);
      LowerAppend(h, Lower(s[1..]));
      LowerIdempotent(s[1..]);
      if s[0] == '\U{0130}' {
        assert Lower(h) == LowerChar('i') + Lower("\U{0307}");
      } else {
        assert Lower(h) == LowerChar(h[0]) + Lower([]);
      }
    }
  }

  // ---------------------------------------------------------------- numbers

  function DigitChar(d: int): char
    requires 0 <= d < 10
  {
    ('0' as int + d) as char
  }

  /** Decimal digits of a natural number, no leading zero. */
  function NatToString(n: nat): (r: string)
    ensures |r| >= 1
    ensures forall i :: 0 <= i < |r| ==> '0' <= r[i] <= '9'
    decreases n
  {
    if n < 10 then [DigitChar(n)] else NatToString(n / 10) + [DigitChar(n % 10)]
  }

  /** `str(n)` / `String(n)` for an integer. */
  function IntToString(n: int): (r: string)
    ensures |r| >= 1
    ensures (r[0] == '-') <==> (n < 0)
  {
    if n < 0 then "-" + NatToString(-n) else NatToString(n)
  }

  predicate IsDigit(c: char)
  {
    '0' <= c <= '9'
  }

  /** `parseInt` of a string of decimal digits. */
  function ParseDecimal(s: string): nat
    requires forall i :: 0 <= i < |s| ==> IsDigit(s[i])
  {
    if s == [] then 0
    else
      assert IsDigit(s[|s| - 1]);
      ParseDecimal(s[..|s| - 1]) * 10 + (s[|s| - 1] as int - '0' as int)
  }

  /** Reading back the digits of a number gives the number. */
  lemma {:induction false} ParseDecimalNatToString(n: nat)
    ensures ParseDecimal(NatToString(n)) == n
    decreases n
  {
    var r := NatToString(n);
    if n >= 10 {
      ParseDecimalNatToString(n / 10);
      assert r[..|r| - 1] == NatToString(n / 10);
    }
  }

  function HexDigit(d: int): char
    requires 0 <= d < 16
  {
    if d < 10 then ('0' as int + d) as char else ('a' as int + d - 10) as char
  }

  /** Two lower-case hex digits of a byte, as `Buffer.toString('hex')` writes it. */
  function HexByte(b: int): (r: string)
    requires 0 <= b < 256
    ensures |r| == 2
  {
    [HexDigit(b / 16), HexDigit(b % 16)]
  }

  /** Four lower-case hex digits, zero-padded. */
  function Hex4(n: int): (r: string)
    requires 0 <= n < 0x1_0000
    ensures |r| == 4
  {
    HexByte(n / 256) + HexByte(n % 256)
  }
}
