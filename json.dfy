/**
 * Decoded JSON values (RFC 8259) and Python's `json.dumps` with its default
 * settings: `", "` and `": "` separators and `ensure_ascii`, so every
 * character outside printable ASCII is written as a `\uXXXX` escape
 * (a surrogate pair above U+FFFF). Numbers are integers only.
 */
module Json {
  import opened Text

  datatype JsonValue =
    | JNull
    | JBool(b: bool)
    | JNum(n: int)
    | JStr(s: string)
    | JArr(items: seq<JsonValue>)
    | JObj(members: seq<(string, JsonValue)>)

  /** Python's truth value of a decoded value: null, false, 0, "", [] and {} are false. */
  predicate Truthy(v: JsonValue)
  {
    match v
    case JNull => false
    case JBool(b) => b
    case JNum(n) => n != 0
    case JStr(s) => s != []
    case JArr(items) => items != []
    case JObj(members) => members != []
  }

  /** Only printable ASCII characters, space to tilde: in particular no line break. */
  predicate PrintableAscii(s: string)
  {
    forall i :: 0 <= i < |s| ==> ' ' <= s[i] <= '~'
  }

  lemma {:induction false} JoinPrintable(parts: seq<string>, sep: string)
    requires PrintableAscii(sep)
    requires forall i :: 0 <= i < |parts| ==> PrintableAscii(parts[i])
    ensures PrintableAscii(Join(parts, sep))
  {
    if |parts| > 1 {
      JoinPrintable(parts[1..], sep);
    }
  }

  function HexEscape(n: int): (r: string)
    requires 0 <= n < 0x1_0000
    ensures |r| == 6 && PrintableAscii(r)
  {
    var h := Hex4(n);
    assert forall i :: 0 <= i < 4 ==> h[i] in "0123456789abcdef";
    "\\u" + h
  }

  /** The text `json.dumps` writes for one character of a string. */
  function EscapeChar(c: char): (r: string)
    ensures |r| >= 1 && PrintableAscii(r)
    ensures r == [c] <==> (' ' <= c <= '~' && c != '"' && c != '\\')
  {
    if c == '"' then "\\\""
    else if c == '\\' then "\\\\"
    else if c == '\n' then "\\n"
    else if c == '\r' then "\\r"
    else if c == '\t' then "\\t"
    else if c == '\U{0008}' then "\\b"
    else if c == '\U{000C}' then "\\f"
    else if ' ' <= c <= '~' then [c]
    else if (c as int) < 0x1_0000 then HexEscape(c as int)
    else
      var n := c as int - 0x1_0000;
      HexEscape(0xD800 + n / 0x400) + HexEscape(0xDC00 + n % 0x400)
  }

  function EscapeString(s: string): (r: string)
    ensures PrintableAscii(r)
    ensures |r| >= |s|
  {
    if s == [] then [] else EscapeChar(s[0]) + EscapeString(s[1..])
  }

  /** `json.dumps` of a string: the escaped text between double quotes. */
  function QuoteString(s: string): (r: string)
    ensures PrintableAscii(r)
    ensures |r| >= 2 && r[0] == '"' && r[|r| - 1] == '"'
  {
    "\"" + EscapeString(s) + "\""
  }

  lemma NatToStringPrintable(n: nat)
    ensures PrintableAscii(NatToString(n))
  {
  }

  /** `json.dumps(v)`. */
  function Dumps(v: JsonValue): (r: string)
    ensures PrintableAscii(r)
    ensures r != []
    ensures v.JStr? ==> r[0] == '"'
    ensures v.JArr? ==> r[0] == '[' && r[|r| - 1] == ']'
    ensures v.JObj? ==> r[0] == '{' && r[|r| - 1] == '}'
    decreases v
  {
    match v
    case JNull => "null"
    case JBool(b) => if b then "true" else "false"
    case JNum(n) =>
      NatToStringPrintable(if n < 0 then -n else n);
      IntToString(n)
    case JStr(s) => QuoteString(s)
    case JArr(items) =>
      var parts := seq(|items|, i requires 0 <= i < |items| => Dumps(items[i]));
      JoinPrintable(parts, ", ");
      "[" + Join(parts, ", ") + "]"
    case JObj(members) =>
      var parts := seq(|members|, i requires 0 <= i < |members| =>
                         QuoteString(members[i].0) + ": " + Dumps(members[i].1));
      JoinPrintable(parts, ", ");
      "{" + Join(parts, ", ") + "}"
  }

  /** A dumped array whose first element is a string begins with `["`. */
  lemma DumpsStringFirst(s: string, rest: seq<JsonValue>)
    ensures StartsWith(Dumps(JArr([JStr(s)] + rest)), "[\"")
  {
    var items := [JStr(s)] + rest;
    var parts := seq(|items|, i requires 0 <= i < |items| => Dumps(items[i]));
    assert parts[0] == QuoteString(s);
    if |parts| == 1 {
      assert Join(parts, ", ") == parts[0];
    } else {
      assert Join(parts, ", ") == parts[0] + ", " + Join(parts[1..], ", ");
    }
    assert Dumps(JArr(items)) == "[" + Join(parts, ", ") + "]";
  }
}
