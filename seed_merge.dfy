/**
 * The merge seed script (`convert_csv_to_sql.py` at the repository root):
 * it prints two DELETE statements and then one multi-line INSERT per CSV
 * row. Text fields go through `clean_text`; the `steps` field becomes an
 * SQLite `json_array(...)` call when it is a bracketed JSON text, and one
 * quoted literal otherwise. `json.loads` is the parameter `loads`. The
 * script is read as Python 3.12 and later run it: line 28 nests an f-string
 * reusing the outer quote character, which earlier versions reject.
 */
module MergeSeedScript {
  import opened Wrappers
  import opened Text
  import opened Json
  import opened SeedRows

  /** The uncaught exceptions that end the script. */
  datatype Crash =
    | StepsMissing      // `row['steps']` is None: AttributeError on `.replace`
    | StepNotText       // a truthy array element that is not a string: AttributeError
    | StepsNotIterable  // the decoded value is a number, boolean or null: TypeError
    | PillarNotInt      // `int(row['pillar_id'])` raises

  const DeleteLogs := "DELETE FROM challenge_logs WHERE 1=1;"
  const DeleteChallenges := "DELETE FROM challenges WHERE 1=1;"

  /**
   * `clean_text`: a falsy text (None or empty) gives ''; otherwise newlines
   * become spaces, every quote is doubled, and the ends are trimmed.
   */
  function CleanText(text: Option<string>): (r: string)
    ensures (text.None? || text == Some("")) ==> r == []
  {
    if text.None? || text.value == [] then []
    else PyStrip(Double(ReplaceChar(text.value, '\n', ' '), '\''))
  }

  /** The result of `clean_text` holds no newline: each became a space before trimming. */
  lemma CleanTextNoNewline(text: Option<string>)
    ensures '\n' !in CleanText(text)
  {
    if text.Some? && text.value != [] {
      var spaced := ReplaceChar(text.value, '\n', ' ');
      ReplaceCharRemoves(text.value, '\n', ' ');
      DoubleKeepsOthers(spaced, '\'', '\n');
      StripKeepsOut(Double(spaced, '\''), '\n', PyIsSpace);
    }
  }

  /** Collapsing the doubled quotes of `clean_text(t)` gives t with newlines as spaces, trimmed. */
  lemma CleanTextUndouble(t: string)
    ensures Undouble(CleanText(Some(t)), '\'') == PyStrip(ReplaceChar(t, '\n', ' '))
  {
    if t != [] {
      var spaced := ReplaceChar(t, '\n', ' ');
      StripDouble(spaced, '\'', PyIsSpace);
      UndoubleDouble(PyStrip(spaced), '\'');
    }
  }

  /** `clean_text` leaves text alone that has no quote, no newline and no outer whitespace. */
  lemma CleanTextIdentity(t: string)
    requires '\'' !in t && '\n' !in t
    requires t == [] || (!PyIsSpace(t[0]) && !PyIsSpace(t[|t| - 1]))
    ensures CleanText(Some(t)) == t
  {
    if t != [] {
      ReplaceCharIdentity(t, '\n', ' ');
      DoubleIdentity(t, '\'');
      StripFixed(t, PyIsSpace);
    }
  }

  // ---------------------------------------------------------------- steps

  /** What Python's `for step in value` walks over: array items, object keys, or string characters. */
  function Iterate(v: JsonValue): (r: Result<seq<JsonValue>, Crash>)
    ensures v.JArr? ==> r == Ok(v.items)
    ensures r.Err? <==> (v.JNull? || v.JBool? || v.JNum?)
  {
    match v
    case JArr(items) => Ok(items)
    case JObj(members) => Ok(seq(|members|, i requires 0 <= i < |members| => JStr(members[i].0)))
    case JStr(s) => Ok(seq(|s|, i requires 0 <= i < |s| => JStr([s[i]])))
    case _ => Err(StepsNotIterable)
  }

  /** `'{clean_text(step)}'` for one element: falsy elements give '', strings are cleaned. */
  function QuoteStep(v: JsonValue): (r: Result<string, Crash>)
    ensures r.Err? <==> (Truthy(v) && !v.JStr?)
    ensures v.JStr? ==> r == Ok(Quote(CleanText(Some(v.s))))
  {
    if !Truthy(v) then Ok(Quote(""))
    else if v.JStr? then Ok(Quote(CleanText(Some(v.s))))
    else Err(StepNotText)
  }

  /** The generator inside `','.join(...)`, evaluated left to right; the first failure propagates. */
  function QuoteSteps(items: seq<JsonValue>): (r: Result<seq<string>, Crash>)
    ensures r.Ok? ==> |r.value| == |items|
    ensures r.Ok? <==> forall i :: 0 <= i < |items| ==> QuoteStep(items[i]).Ok?
    ensures r.Ok? ==> forall i :: 0 <= i < |items| ==> r.value[i] == QuoteStep(items[i]).value
  {
    if items == [] then Ok([])
    else
      match QuoteStep(items[0])
      case Err(e) => Err(e)
      case Ok(first) =>
        match QuoteSteps(items[1..])
        case Err(e) => Err(e)
        case Ok(rest) => Ok([first] + rest)
  }

  predicate Bracketed(s: string)
  {
    StartsWith(s, "[") && EndsWith(s, "]")
  }

  /** The steps column value: `json_array(...)`, or one quoted literal when not bracketed or not JSON. */
  function StepsValue(raw: Option<string>, loads: string -> Option<JsonValue>): Result<string, Crash>
  {
    if raw.None? then Err(StepsMissing)
    else
      var s := PyStrip(ReplaceChar(raw.value, '\n', ' '));
      if Bracketed(s) && loads(s).Some? then
        match Iterate(loads(s).value)
        case Err(e) => Err(e)
        case Ok(items) =>
          match QuoteSteps(items)
          case Err(e) => Err(e)
          case Ok(quoted) => Ok("json_array(" + Join(quoted, ",") + ")")
      else Ok(Quote(CleanText(Some(s))))
  }

  /**
   * A bracketed steps text that decodes to an array of strings becomes
   * `json_array('a','b',...)`: the elements in order, each cleaned and quoted.
   */
  lemma StepsJsonArray(raw: string, loads: string -> Option<JsonValue>, texts: seq<string>)
    requires Bracketed(PyStrip(ReplaceChar(raw, '\n', ' ')))
    requires loads(PyStrip(ReplaceChar(raw, '\n', ' '))) ==
             Some(JArr(seq(|texts|, i requires 0 <= i < |texts| => JStr(texts[i]))))
    ensures StepsValue(Some(raw), loads) ==
            Ok("json_array(" + Join(seq(|texts|, i requires 0 <= i < |texts| => Quote(CleanText(Some(texts[i])))), ",") + ")")
  {
    var items := seq(|texts|, i requires 0 <= i < |texts| => JStr(texts[i]));
    var quoted := QuoteSteps(items);
    assert forall i :: 0 <= i < |items| ==> QuoteStep(items[i]).Ok?;
    assert quoted.value == seq(|texts|, i requires 0 <= i < |texts| => Quote(CleanText(Some(texts[i]))));
  }

  /**
   * A present steps text that is not bracketed, or that `json.loads` rejects,
   * becomes one quoted cleaned literal; the script does not stop.
   */
  lemma StepsFallback(raw: string, loads: string -> Option<JsonValue>)
    requires var s := PyStrip(ReplaceChar(raw, '\n', ' ')); !Bracketed(s) || loads(s).None?
    ensures StepsValue(Some(raw), loads) == Ok(Quote(CleanText(Some(PyStrip(ReplaceChar(raw, '\n', ' '))))))
    ensures WellQuoted(StepsValue(Some(raw), loads).value)
  {
    var s := PyStrip(ReplaceChar(raw, '\n', ' '));
    if s != [] {
      var spaced := ReplaceChar(s, '\n', ' ');
      StripDouble(spaced, '\'', PyIsSpace);
      QuotedDoubleWellQuoted(PyStrip(spaced));
    } else {
      QuotedDoubleWellQuoted("");
    }
  }

  // ---------------------------------------------------------------- int()

  function DigitValue(c: char): int
  {
    c as int - '0' as int
  }

  predicate IsDigit(c: char)
  {
    '0' <= c <= '9'
  }

  /** Decimal digits with single underscores allowed between two digits, as `int()` accepts them. */
  function DecimalValue(s: string): Option<nat>
    decreases |s|
  {
    if s == [] || !IsDigit(s[|s| - 1]) then None
    else if |s| == 1 then Some(DigitValue(s[0]))
    else
      var init := s[..|s| - 1];
      var body := if init[|init| - 1] == '_' then init[..|init| - 1] else init;
      match DecimalValue(body)
      case None => None
      case Some(v) => Some(v * 10 + DigitValue(s[|s| - 1]))
  }

  /** An optional sign followed by decimal digits. */
  function SignedDecimal(s: string): Option<int>
  {
    var negative := s != [] && s[0] == '-';
    var digits := if s != [] && (s[0] == '-' || s[0] == '+') then s[1..] else s;
    match DecimalValue(digits)
    case None => None
    case Some(v) => Some(if negative then 0 - v else v)
  }

  /** `int(text)`: None raises, as does anything but outer whitespace around a signed decimal. */
  function ParseInt(text: Option<string>): Option<int>
  {
    if text.None? then None else SignedDecimal(PyStrip(text.value))
  }

  lemma {:induction false} DecimalOfNatToString(n: nat)
    ensures DecimalValue(NatToString(n)) == Some(n)
    decreases n
  {
    var s := NatToString(n);
    if n >= 10 {
      var init := NatToString(n / 10);
      DecimalOfNatToString(n / 10);
      assert s == init + [DigitChar(n % 10)];
      assert s[..|s| - 1] == init;
      assert IsDigit(init[|init| - 1]);
      assert DigitValue(s[|s| - 1]) == n % 10;
    }
  }

  lemma NoStripAroundDigits(t: string, negative: bool)
    requires t != [] && IsDigit(t[0]) && IsDigit(t[|t| - 1])
    ensures PyStrip(if negative then "-" + t else t) == (if negative then "-" + t else t)
  {
    var s := if negative then "-" + t else t;
    assert s[|s| - 1] == t[|t| - 1];
    assert !PyIsSpace(s[0]) && !PyIsSpace(s[|s| - 1]);
    StripFixed(s, PyIsSpace);
  }

  lemma SignedDecimalOfDigits(t: string, negative: bool)
    requires t != [] && IsDigit(t[0])
    ensures SignedDecimal(if negative then "-" + t else t) ==
            (match DecimalValue(t) case None => None case Some(v) => Some(if negative then 0 - v else v))
  {
    if negative {
      assert ("-" + t)[1..] == t;
    }
  }

  /** `int(str(n)) == n`: a pillar id written by `str` reads back unchanged. */
  lemma ParseIntOfIntToString(n: int)
    ensures ParseInt(Some(IntToString(n))) == Some(n)
  {
    var d: nat := if n < 0 then -n else n;
    var t := NatToString(d);
    assert IntToString(n) == if n < 0 then "-" + t else t;
    DecimalOfNatToString(d);
    NoStripAroundDigits(t, n < 0);
    SignedDecimalOfDigits(t, n < 0);
  }

  // ---------------------------------------------------------------- statements

  /** Sixteen spaces, the indentation of the column and value lines. */
  const Indent := "                "

  function Indented(lines: seq<string>): (r: seq<string>)
    ensures |r| == |lines|
    ensures forall i :: 0 <= i < |lines| ==> r[i] == Indent + lines[i]
  {
    seq(|lines|, i requires 0 <= i < |lines| => Indent + lines[i])
  }

  /** The column part of the statement: the ten columns, one per line. */
  const InsertHead :=
    "INSERT INTO challenges (\n"
    + "                id, \n                title, \n                description, \n"
    + "                goal, \n                steps, \n                example_dialogue, \n"
    + "                tip, \n                pillar_id, \n                age_range, \n"
    + "                difficulty_level\n            ) VALUES (\n"

  /** The INSERT text: the column lines, then one value per line in the same order. */
  function Insert(values: seq<string>): string
    requires |values| == 10
  {
    InsertHead + Join(Indented(values), ",\n") + "\n            );"
  }

  /** The ten value texts of one row, in column order, given the steps text and the parsed pillar. */
  function RowValues(row: PyRow, steps: string, pillar: int): (r: seq<string>)
    ensures |r| == 10
    ensures r[4] == steps && r[7] == IntToString(pillar)
    ensures r[9] == Quote(CleanText(row.difficulty_level))
  {
    [Quote(CleanText(row.id)), Quote(CleanText(row.title)), Quote(CleanText(row.description)),
     Quote(CleanText(row.goal)), steps, Quote(CleanText(row.example_dialogue)),
     Quote(CleanText(row.tip)), IntToString(pillar), Quote(CleanText(row.age_range)),
     Quote(CleanText(row.difficulty_level))]
  }

  /** A quoted `clean_text` result is a well-formed SQL literal. */
  lemma CleanWellQuoted(text: Option<string>)
    ensures WellQuoted(Quote(CleanText(text)))
  {
    if text.None? || text.value == [] {
      QuotedDoubleWellQuoted("");
    } else {
      var spaced := ReplaceChar(text.value, '\n', ' ');
      StripDouble(spaced, '\'', PyIsSpace);
      QuotedDoubleWellQuoted(PyStrip(spaced));
    }
  }

  /** The statement printed for one row, or the exception that ends the run there. */
  function RowStatement(row: PyRow, loads: string -> Option<JsonValue>): Result<string, Crash>
  {
    match StepsValue(row.steps, loads)
    case Err(e) => Err(e)
    case Ok(steps) =>
      match ParseInt(row.pillar_id)
      case None => Err(PillarNotInt)
      case Some(p) => Ok(Insert(RowValues(row, steps, p)))
  }

  /** pillar_id goes out unquoted through `int()`: a value `int()` rejects stops the run at that row. */
  lemma PillarMustBeInteger(row: PyRow, loads: string -> Option<JsonValue>)
    requires StepsValue(row.steps, loads).Ok?
    ensures RowStatement(row, loads).Err? <==> ParseInt(row.pillar_id).None?
    ensures ParseInt(row.pillar_id).Some? ==>
      RowStatement(row, loads) ==
      Ok(Insert(RowValues(row, StepsValue(row.steps, loads).value, ParseInt(row.pillar_id).value)))
  {
  }

  /** The per-row statement of this script, as the function its row loop applies. */
  function Statement(loads: string -> Option<JsonValue>): PyRow -> Result<string, Crash>
  {
    row => RowStatement(row, loads)
  }

  /**
   * Exactly one INSERT per row, in row order, each the statement for its row;
   * when the run stops early, it is at the first row whose statement raises.
   */
  lemma OneInsertPerRow(rows: seq<PyRow>, loads: string -> Option<JsonValue>)
    ensures var (out, crash) := Run(rows, Statement(loads));
      (forall j :: 0 <= j < |out| ==> RowStatement(rows[j], loads) == Ok(out[j]))
      && (crash.None? <==> |out| == |rows|)
      && (crash.Some? ==> RowStatement(rows[|out|], loads) == Err(crash.value))
  {
    RunOnePerRow(rows, Statement(loads));
  }

  /** The script's output, one entry per `print`: both DELETEs, then the INSERTs of `Run`. */
  method ConvertCsvToSql(rows: seq<PyRow>, loads: string -> Option<JsonValue>)
    returns (printed: seq<string>, crash: Option<Crash>)
    ensures |printed| >= 2 && printed[0] == DeleteLogs && printed[1] == DeleteChallenges
    ensures printed[2..] == Run(rows, Statement(loads)).0 && crash == Run(rows, Statement(loads)).1
  {
    var inserts;
    inserts, crash := PrintRows(rows, Statement(loads));
    printed := [DeleteLogs, DeleteChallenges] + inserts;
  }
}
