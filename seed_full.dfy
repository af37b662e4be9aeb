/**
 * The full seed script (`src/backend/scripts/convert_csv_to_sql.py`): it
 * writes one DELETE and then a single multi-row INSERT whose tuples are
 * separated by ",\n" and ended by ";\n". Text goes through
 * `escape_sql_string`; `steps` is decoded with `json.loads` (the parameter
 * `loads`) and written back with `json.dumps`, with no fallback.
 */
module FullSeedScript {
  import opened Wrappers
  import opened Text
  import opened Json
  import opened SeedRows

  /** The uncaught exceptions that end the script, leaving what was already written. */
  datatype Crash =
    | StepsMissing   // `json.loads(None)`: TypeError
    | StepsNotJson   // `json.loads` rejects the text
    | ValueMissing   // a None pillar_id or difficulty_level inside `', '.join`: TypeError

  const ClearComment := "-- Clear existing data\n"
  const DeleteAll := "DELETE FROM challenges;\n\n"
  const InsertComment := "-- Insert all 150 challenges\n"
  const InsertHeader :=
    "INSERT INTO challenges (id, title, description, goal, steps, example_dialogue, tip, pillar_id, age_range, difficulty_level) VALUES\n"

  /** `escape_sql_string`: None is the bare token NULL; text has its quotes doubled and is quoted. */
  function EscapeSqlString(s: Option<string>): (r: string)
    ensures s.None? <==> r == "NULL"
    ensures s.Some? ==> WellQuoted(r)
  {
    if s.None? then "NULL"
    else
      QuotedDoubleWellQuoted(s.value);
      Quote(Double(s.value, '\''))
  }

  /** Dropping the outer quotes and collapsing `''` recovers the text. */
  lemma EscapeRoundTrip(s: string)
    ensures var r := EscapeSqlString(Some(s)); |r| >= 2 && Undouble(r[1..|r| - 1], '\'') == s
  {
    var r := EscapeSqlString(Some(s));
    assert r[1..|r| - 1] == Double(s, '\'');
    UndoubleDouble(s, '\'');
  }

  /** The escaped text is two quotes and one extra character per quote longer. */
  lemma EscapeLength(s: string)
    ensures |EscapeSqlString(Some(s))| == |s| + 2 + Count(s, '\'')
  {
    DoubleCounts(s, '\'');
  }

  /** The ten values of one tuple in column order; pillar_id and difficulty_level go in raw. */
  function Values(row: PyRow, steps: JsonValue): (r: seq<string>)
    requires row.pillar_id.Some? && row.difficulty_level.Some?
    ensures |r| == 10
  {
    [EscapeSqlString(row.id), EscapeSqlString(row.title), EscapeSqlString(row.description),
     EscapeSqlString(row.goal), EscapeSqlString(Some(Dumps(steps))),
     EscapeSqlString(row.example_dialogue), EscapeSqlString(row.tip),
     row.pillar_id.value, EscapeSqlString(row.age_range), row.difficulty_level.value]
  }

  /**
   * Every value but pillar_id and difficulty_level is a well-formed literal
   * or NULL; those two are the raw field text, neither quoted nor checked.
   */
  lemma ValuesQuoting(row: PyRow, steps: JsonValue)
    requires row.pillar_id.Some? && row.difficulty_level.Some?
    ensures var r := Values(row, steps);
      (forall i :: 0 <= i < 10 && i != 7 && i != 9 ==> WellQuoted(r[i]) || r[i] == "NULL")
      && r[7] == row.pillar_id.value && r[9] == row.difficulty_level.value
  {
  }

  /** One tuple `(v1, ..., v10)`, or the exception raised while building it. */
  function Tuple(row: PyRow, loads: string -> Option<JsonValue>): Result<string, Crash>
  {
    if row.steps.None? then Err(StepsMissing)
    else
      match loads(row.steps.value)
      case None => Err(StepsNotJson)
      case Some(steps) =>
        if row.pillar_id.None? || row.difficulty_level.None? then Err(ValueMissing)
        else Ok("(" + Join(Values(row, steps), ", ") + ")")
  }

  /**
   * The steps text is decoded and encoded again, then written as one escaped
   * literal; text `json.loads` rejects stops the script, with no fallback.
   */
  lemma StepsReserialised(row: PyRow, loads: string -> Option<JsonValue>)
    requires row.steps.Some? && row.pillar_id.Some? && row.difficulty_level.Some?
    ensures loads(row.steps.value).None? ==> Tuple(row, loads) == Err(StepsNotJson)
    ensures loads(row.steps.value).Some? ==>
      var r := Values(row, loads(row.steps.value).value);
      Tuple(row, loads) == Ok("(" + Join(r, ", ") + ")")
      && r[4] == EscapeSqlString(Some(Dumps(loads(row.steps.value).value)))
  {
  }

  /** The function the row loop applies. */
  function TupleOf(loads: string -> Option<JsonValue>): PyRow -> Result<string, Crash>
  {
    row => Tuple(row, loads)
  }

  /**
   * The text written after the tuples `ts` of a file of n rows: each tuple
   * followed by ",\n", except the tuple of the last row, followed by ";\n".
   */
  function Separated(ts: seq<string>, n: nat): string
    decreases |ts|
  {
    if ts == [] then []
    else Separated(ts[..|ts| - 1], n) + ts[|ts| - 1] + (if |ts| - 1 < n - 1 then ",\n" else ";\n")
  }

  lemma {:induction false} SeparatedPartial(ts: seq<string>, n: nat)
    requires 1 <= |ts| < n
    ensures Separated(ts, n) == Join(ts, ",\n") + ",\n"
    decreases |ts|
  {
    var init := ts[..|ts| - 1];
    if |ts| > 1 {
      SeparatedPartial(init, n);
      JoinAppend(init, ts[|ts| - 1], ",\n");
      assert init + [ts[|ts| - 1]] == ts;
    }
  }

  /**
   * For n >= 1 rows all written, the tuples are joined by ",\n" and only the
   * last is followed by ";\n"; for no rows nothing follows the header.
   */
  lemma SeparatedComplete(ts: seq<string>, n: nat)
    requires |ts| == n
    ensures n == 0 ==> Separated(ts, n) == []
    ensures n >= 1 ==> Separated(ts, n) == Join(ts, ",\n") + ";\n"
  {
    if n > 1 {
      var init := ts[..|ts| - 1];
      SeparatedPartial(init, n);
      JoinAppend(init, ts[|ts| - 1], ",\n");
      assert init + [ts[|ts| - 1]] == ts;
    }
  }

  /** One more tuple adds it and its separator. */
  lemma SeparatedSnoc(ts: seq<string>, t: string, n: nat)
    ensures Separated(ts + [t], n) == Separated(ts, n) + t + (if |ts| < n - 1 then ",\n" else ";\n")
  {
    assert (ts + [t])[..|ts|] == ts;
  }

  /** The loop over `enumerate(rows)`: each tuple, then its separator, until a tuple raises. */
  method WriteTuples<R, E>(rows: seq<R>, tuple: R -> Result<string, E>)
    returns (written: string, crash: Option<E>)
    ensures written == Separated(Run(rows, tuple).0, |rows|) && crash == Run(rows, tuple).1
  {
    written := [];
    crash := None;
    ghost var tuples: seq<string> := [];
    var i := 0;
    assert rows[0..] == rows;
    while i < |rows|
      invariant 0 <= i <= |rows| && |tuples| == i
      invariant written == Separated(tuples, |rows|)
      invariant tuples + Run(rows[i..], tuple).0 == Run(rows, tuple).0
      invariant Run(rows[i..], tuple).1 == Run(rows, tuple).1
    {
      var t := tuple(rows[i]);
      RunStep(rows, i, tuple);
      if t.Err? {
        crash := Some(t.error);
        assert tuples + [] == tuples;
        return;
      }
      written := written + t.value;
      if i < |rows| - 1 {
        written := written + ",\n";
      } else {
        written := written + ";\n";
      }
      ghost var rest := Run(rows[i + 1..], tuple).0;
      assert (tuples + [t.value]) + rest == tuples + ([t.value] + rest);
      SeparatedSnoc(tuples, t.value, |rows|);
      tuples := tuples + [t.value];
      i := i + 1;
    }
    assert rows[i..] == [];
    assert tuples + [] == tuples;
  }

  /** The whole file: the DELETE, the INSERT header, then the tuples as `WriteTuples` writes them. */
  method ConvertCsvToSql(rows: seq<PyRow>, loads: string -> Option<JsonValue>)
    returns (written: string, crash: Option<Crash>)
    ensures written == ClearComment + DeleteAll + InsertComment + InsertHeader
                       + Separated(Run(rows, TupleOf(loads)).0, |rows|)
    ensures crash == Run(rows, TupleOf(loads)).1
  {
    var tuples;
    tuples, crash := WriteTuples(rows, TupleOf(loads));
    written := ClearComment + DeleteAll + InsertComment + InsertHeader + tuples;
  }

  /**
   * When no row raises, the file after the header is the rows' tuples, in
   * order, joined by ",\n" and ended by ";\n" (nothing at all for no rows).
   */
  lemma CompleteFile(rows: seq<PyRow>, loads: string -> Option<JsonValue>)
    requires Run(rows, TupleOf(loads)).1.None?
    ensures var ts := Run(rows, TupleOf(loads)).0;
      |ts| == |rows|
      && (forall j :: 0 <= j < |rows| ==> Tuple(rows[j], loads) == Ok(ts[j]))
      && Separated(ts, |rows|) == (if rows == [] then [] else Join(ts, ",\n") + ";\n")
  {
    RunOnePerRow(rows, TupleOf(loads));
    SeparatedComplete(Run(rows, TupleOf(loads)).0, |rows|);
  }
}
