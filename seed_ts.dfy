/**
 * The TypeScript seed script (`src/backend/scripts/convert-csv-to-sql.ts`):
 * `records.map` turns each parsed record into one INSERT, and the file is
 * the statements joined by a blank line. Only five text fields have their
 * quotes doubled; id, steps and age_range are quoted as they are, and
 * pillar_id and difficulty_level are written unquoted.
 */
module TsSeedScript {
  import opened Text
  import opened SeedRows

  /** A record as `csv.parse` with `columns: true` gives it: every field a string. */
  datatype Record = Record(
    id: string,
    title: string,
    description: string,
    goal: string,
    steps: string,
    example_dialogue: string,
    tip: string,
    pillar_id: string,
    age_range: string,
    difficulty_level: string)

  /** `s.replace(/'/g, "''")`. */
  function Escape(s: string): string
  {
    Double(s, '\'')
  }

  /** The ten value texts of a record, in column order. */
  function Values(r: Record): (v: seq<string>)
    ensures |v| == 10
  {
    [Quote(r.id), Quote(Escape(r.title)), Quote(Escape(r.description)), Quote(Escape(r.goal)),
     Quote(r.steps), Quote(Escape(r.example_dialogue)), Quote(Escape(r.tip)),
     r.pillar_id, Quote(r.age_range), r.difficulty_level]
  }

  /** An escaped field between quotes is a well-formed literal, and collapsing `''` gives the field back. */
  lemma EscapeWellQuoted(s: string)
    ensures WellQuoted(Quote(Escape(s)))
    ensures Undouble(Escape(s), '\'') == s
  {
    QuotedDoubleWellQuoted(s);
    UndoubleDouble(s, '\'');
  }

  /** title, description, goal, example_dialogue and tip are the only values escaped. */
  lemma EscapedFields(r: Record)
    ensures var v := Values(r);
      v[1] == Quote(Escape(r.title)) && v[2] == Quote(Escape(r.description))
      && v[3] == Quote(Escape(r.goal)) && v[5] == Quote(Escape(r.example_dialogue))
      && v[6] == Quote(Escape(r.tip))
  {
  }

  /**
   * id, steps and age_range are put between quotes unescaped: one holding an
   * odd number of quotes breaks its literal. pillar_id and difficulty_level
   * are the field text itself, without quotes.
   */
  lemma UnescapedFields(r: Record)
    ensures var v := Values(r);
      v[0] == Quote(r.id) && v[4] == Quote(r.steps) && v[8] == Quote(r.age_range)
      && (Count(r.id, '\'') % 2 == 1 ==> !WellQuoted(v[0]))
      && (Count(r.steps, '\'') % 2 == 1 ==> !WellQuoted(v[4]))
      && (Count(r.age_range, '\'') % 2 == 1 ==> !WellQuoted(v[8]))
      && v[7] == r.pillar_id && v[9] == r.difficulty_level
  {
    if Count(r.id, '\'') % 2 == 1 {
      OddQuotesBreakLiteral(r.id);
    }
    if Count(r.steps, '\'') % 2 == 1 {
      OddQuotesBreakLiteral(r.steps);
    }
    if Count(r.age_range, '\'') % 2 == 1 {
      OddQuotesBreakLiteral(r.age_range);
    }
  }

  /** The value lines: each value on its own line at four spaces, separated by commas. */
  function ValueLines(v: seq<string>): string
  {
    if v == [] then []
    else if |v| == 1 then "    " + v[0]
    else "    " + v[0] + ",\n" + ValueLines(v[1..])
  }

  /** The template literal: the column line, then one value per line. */
  function Statement(r: Record): string
  {
    "INSERT INTO challenges (\n    " + Join(Columns, ", ") + "\n  ) VALUES (\n"
    + ValueLines(Values(r))
    + "\n  );"
  }

  /** The callback given to `records.map`. */
  function StatementOf(): Record -> string
  {
    r => Statement(r)
  }

  /** One statement per record, in record order. */
  lemma StatementsInOrder(records: seq<Record>)
    ensures |Map(records, StatementOf())| == |records|
    ensures forall i :: 0 <= i < |records| ==> Map(records, StatementOf())[i] == Statement(records[i])
  {
    MapAt(records, StatementOf());
  }

  /** The file text: the statements joined by a blank line. */
  function Output(records: seq<Record>): string
  {
    Join(Map(records, StatementOf()), "\n\n")
  }

  /**
   * Each further record adds a blank line and its statement, so the
   * separator only ever stands between two statements, never after the last.
   */
  lemma OutputAppend(records: seq<Record>, r: Record)
    ensures records == [] ==> Output(records + [r]) == Statement(r)
    ensures records != [] ==> Output(records + [r]) == Output(records) + "\n\n" + Statement(r)
  {
    assert (records + [r])[..|records|] == records;
    if records != [] {
      JoinAppend(Map(records, StatementOf()), Statement(r), "\n\n");
    }
  }

  /** A non-empty file ends with the last record's statement, not with a separator. */
  lemma OutputEnds(records: seq<Record>)
    requires records != []
    ensures EndsWith(Output(records), Statement(records[|records| - 1]))
  {
    var n := |records|;
    assert records == records[..n - 1] + [records[n - 1]];
    OutputAppend(records[..n - 1], records[n - 1]);
    EndsWithAppend(Output(records[..n - 1]) + "\n\n", Statement(records[n - 1]));
  }
}
