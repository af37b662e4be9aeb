/**
 * The insert-statement script (`src/backend/scripts/insert_challenges.py`):
 * one INSERT printed per CSV row, its values interpolated into an f-string
 * template. `clean_text` doubles both kinds of quote; `convert_steps`
 * re-serialises the steps JSON (the parameter `loads` is `json.loads`) or
 * gives None; a None is interpolated as the text `None`.
 */
module InsertScript {
  import opened Wrappers
  import opened Text
  import opened Json
  import opened SeedRows

  /** `clean_text`: None stays None; every `'` and then every `"` is doubled. */
  function CleanText(text: Option<string>): (r: Option<string>)
    ensures text.None? <==> r.None?
  {
    if text.None? then None else Some(Double(Double(text.value, '\''), '"'))
  }

  /** Collapsing `""` and then `''` in `clean_text(t)` gives t back. */
  lemma CleanTextRoundTrip(t: string)
    ensures Undouble(Undouble(CleanText(Some(t)).value, '"'), '\'') == t
  {
    UndoubleDouble(Double(t, '\''), '"');
    UndoubleDouble(t, '\'');
  }

  /** Both kinds of quote are doubled: each count of `'` and of `"` doubles. */
  lemma CleanTextCounts(t: string)
    ensures Count(CleanText(Some(t)).value, '\'') == 2 * Count(t, '\'')
    ensures Count(CleanText(Some(t)).value, '"') == 2 * Count(t, '"')
  {
    DoubleCounts(t, '\'');
    DoubleCountOther(Double(t, '\''), '"', '\'');
    DoubleCountOther(t, '\'', '"');
    DoubleCounts(Double(t, '\''), '"');
  }

  /** A cleaned text between single quotes is a well-formed SQL literal. */
  lemma CleanTextWellQuoted(t: string)
    ensures WellQuoted(Quote(CleanText(Some(t)).value))
  {
    DoublePaired(t);
    DoubleOtherPaired(Double(t, '\''), '"');
  }

  /**
   * `convert_steps`: None for a falsy text and for any text `json.loads`
   * rejects (the except clause is bare); otherwise `json.dumps` of the
   * decoded value with only `'` doubled.
   */
  function ConvertSteps(steps: Option<string>, loads: string -> Option<JsonValue>): (r: Option<string>)
    ensures (steps.None? || steps == Some("")) ==> r.None?
    ensures steps.Some? && loads(steps.value).None? ==> r.None?
  {
    if steps.None? || steps.value == [] then None
    else
      match loads(steps.value)
      case None => None
      case Some(v) => Some(Double(Dumps(v), '\''))
  }

  /**
   * On success the `"` characters that `json.dumps` wrote are kept single,
   * unlike `clean_text`, and the quotes of the encoding collapse back to it.
   */
  lemma ConvertStepsQuotes(steps: string, loads: string -> Option<JsonValue>)
    requires steps != [] && loads(steps).Some?
    ensures var r := ConvertSteps(Some(steps), loads).value;
      var d := Dumps(loads(steps).value);
      Count(r, '"') == Count(d, '"') && Undouble(r, '\'') == d
  {
    var d := Dumps(loads(steps).value);
    DoubleCountOther(d, '\'', '"');
    UndoubleDouble(d, '\'');
  }

  /** What an f-string writes for a value: its text, or `None` for None. */
  function Show(v: Option<string>): (r: string)
    ensures v.Some? ==> r == v.value
  {
    if v.None? then "None" else v.value
  }

  /** The ten value texts in column order, quoted where the template quotes them. */
  function Values(row: PyRow, loads: string -> Option<JsonValue>): (r: seq<string>)
    ensures |r| == 10
  {
    [Quote(Show(CleanText(row.id))), Quote(Show(CleanText(row.title))),
     Quote(Show(CleanText(row.description))), Quote(Show(CleanText(row.goal))),
     Quote(Show(ConvertSteps(row.steps, loads))), Quote(Show(CleanText(row.example_dialogue))),
     Quote(Show(CleanText(row.tip))), Show(row.pillar_id), Quote(Show(CleanText(row.age_range))),
     Show(row.difficulty_level)]
  }

  /** A missing text field, or steps that do not decode, appear as the quoted text 'None', not as SQL NULL. */
  lemma NoneIsText(row: PyRow, loads: string -> Option<JsonValue>)
    ensures row.title.None? ==> Values(row, loads)[1] == "'None'"
    ensures ConvertSteps(row.steps, loads).None? ==> Values(row, loads)[4] == "'None'"
  {
    assert Quote("None") == "'None'";
  }

  /** pillar_id and difficulty_level appear unquoted and unescaped, a missing one as the bare word None. */
  lemma RawColumns(row: PyRow, loads: string -> Option<JsonValue>)
    ensures Values(row, loads)[7] == Show(row.pillar_id)
    ensures Values(row, loads)[9] == Show(row.difficulty_level)
    ensures row.pillar_id.None? ==> Values(row, loads)[7] == "None"
  {
  }

  /** The f-string template filled with the ten values. */
  function Statement(row: PyRow, loads: string -> Option<JsonValue>): string
  {
    var v := Values(row, loads);
    "INSERT INTO challenges (\n"
    + "                id, title, description, goal, steps, example_dialogue, \n"
    + "                tip, pillar_id, age_range, difficulty_level\n"
    + "            ) VALUES (\n"
    + "                " + v[0] + ", " + v[1] + ", " + v[2] + ", " + v[3] + ", " + v[4] + ", \n"
    + "                " + v[5] + ", " + v[6] + ", " + v[7] + ", " + v[8] + ", \n"
    + "                " + v[9] + "\n"
    + "            );"
  }

  /** The function the row loop applies. */
  function StatementOf(loads: string -> Option<JsonValue>): PyRow -> string
  {
    row => Statement(row, loads)
  }

  /** The row loop: one printed statement per row, in row order; nothing in it raises. */
  method GenerateInsertStatements(rows: seq<PyRow>, loads: string -> Option<JsonValue>)
    returns (printed: seq<string>)
    ensures |printed| == |rows|
    ensures forall j :: 0 <= j < |rows| ==> printed[j] == Statement(rows[j], loads)
  {
    printed := PrintEach(rows, StatementOf(loads));
  }
}
