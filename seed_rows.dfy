/**
 * What the challenge seed scripts share: the CSV row as Python's
 * `csv.DictReader` hands it over (a field missing from a short row is
 * `None`), the ten target columns of the `challenges` table, and the
 * single-quote wrapping of an SQL character-string literal.
 */
module SeedRows {
  import opened Wrappers
  import opened Text

  datatype PyRow = PyRow(
    id: Option<string>,
    title: Option<string>,
    description: Option<string>,
    goal: Option<string>,
    steps: Option<string>,
    example_dialogue: Option<string>,
    tip: Option<string>,
    pillar_id: Option<string>,
    age_range: Option<string>,
    difficulty_level: Option<string>)

  /** The column order every seed script inserts in. */
  const Columns: seq<string> :=
    ["id", "title", "description", "goal", "steps", "example_dialogue",
     "tip", "pillar_id", "age_range", "difficulty_level"]

  /** Text placed between single quotes, with no escaping of its own. */
  function Quote(s: string): string
  {
    "'" + s + "'"
  }

  /** Every quote in `body` is the first of a pair `''`: the body of a well-formed literal. */
  predicate PairedQuotes(body: string)
    decreases |body|
  {
    if body == [] then true
    else if body[0] == '\'' then |body| >= 2 && body[1] == '\'' && PairedQuotes(body[2..])
    else PairedQuotes(body[1..])
  }

  /**
   * A literal whose quotes inside the outer two all come in pairs: the SQL
   * rule for a quote within a character-string literal (ISO/IEC 9075-2,
   * section 5.3).
   */
  predicate WellQuoted(lit: string)
  {
    |lit| >= 2 && lit[0] == '\'' && lit[|lit| - 1] == '\'' && PairedQuotes(lit[1..|lit| - 1])
  }

  lemma {:induction false} PairedQuotesEven(body: string)
    requires PairedQuotes(body)
    ensures Count(body, '\'') % 2 == 0
    decreases |body|
  {
    if body != [] {
      if body[0] == '\'' {
        PairedQuotesEven(body[2..]);
        assert body[1..][1..] == body[2..];
      } else {
        PairedQuotesEven(body[1..]);
      }
    }
  }

  lemma {:induction false} DoublePaired(s: string)
    ensures PairedQuotes(Double(s, '\''))
  {
    if s != [] {
      DoublePaired(s[1..]);
      var d := Double(s, '\'');
      if s[0] == '\'' {
        assert d[2..] == Double(s[1..], '\'');
      } else {
        assert d[1..] == Double(s[1..], '\'');
      }
    }
  }

  /** Doubling some other character keeps every quote paired. */
  lemma {:induction false} DoubleOtherPaired(body: string, c: char)
    requires c != '\'' && PairedQuotes(body)
    ensures PairedQuotes(Double(body, c))
    decreases |body|
  {
    if body != [] {
      var d := Double(body, c);
      if body[0] == '\'' {
        DoubleOtherPaired(body[2..], c);
        assert body[1..][1..] == body[2..];
        assert d == ['\''] + (['\''] + Double(body[2..], c));
        assert d[2..] == Double(body[2..], c);
      } else {
        DoubleOtherPaired(body[1..], c);
        if body[0] == c {
          assert d[2..] == Double(body[1..], c);
        } else {
          assert d[1..] == Double(body[1..], c);
        }
      }
    }
  }

  lemma {:induction false} QuotesOfQuoted(s: string)
    ensures Count(Quote(s), '\'') == Count(s, '\'') + 2
  {
    CountAppend("'", s, '\'');
    CountAppend("'" + s, "'", '\'');
  }

  /** A well-formed literal has an even number of quote characters. */
  lemma WellQuotedEvenQuotes(lit: string)
    requires WellQuoted(lit)
    ensures Count(lit, '\'') % 2 == 0
  {
    assert lit == Quote(lit[1..|lit| - 1]);
    QuotesOfQuoted(lit[1..|lit| - 1]);
    PairedQuotesEven(lit[1..|lit| - 1]);
  }

  /** Doubling every quote and wrapping in quotes always gives a well-formed literal. */
  lemma QuotedDoubleWellQuoted(s: string)
    ensures WellQuoted(Quote(Double(s, '\'')))
  {
    DoublePaired(s);
  }

  /**
   * Text with an odd number of quotes, placed between quotes without
   * doubling, is not a well-formed literal: the statement's quoting breaks.
   */
  lemma OddQuotesBreakLiteral(s: string)
    requires Count(s, '\'') % 2 == 1
    ensures !WellQuoted(Quote(s))
  {
    QuotesOfQuoted(s);
    if WellQuoted(Quote(s)) {
      WellQuotedEvenQuotes(Quote(s));
    }
  }

  // ---------------------------------------------------------------- the row loop

  /**
   * What a script's `for row in reader` loop prints: each row's statement in
   * order, up to the first row whose statement raises, and that exception.
   */
  function Run<R, E>(rows: seq<R>, statement: R -> Result<string, E>): (r: (seq<string>, Option<E>))
    ensures |r.0| <= |rows|
    ensures r.1.None? <==> |r.0| == |rows|
  {
    if rows == [] then ([], None)
    else
      match statement(rows[0])
      case Err(e) => ([], Some(e))
      case Ok(s) =>
        var rest := Run(rows[1..], statement);
        ([s] + rest.0, rest.1)
  }

  /** One printed statement per row, each the statement of its row; a stop is at the row that raised. */
  lemma {:induction false} RunOnePerRow<R, E>(rows: seq<R>, statement: R -> Result<string, E>)
    ensures var (out, crash) := Run(rows, statement);
      (forall j :: 0 <= j < |out| ==> statement(rows[j]) == Ok(out[j]))
      && (crash.Some? ==> statement(rows[|out|]) == Err(crash.value))
  {
    if rows != [] && statement(rows[0]).Ok? {
      RunOnePerRow(rows[1..], statement);
      var out := Run(rows, statement).0;
      assert out == [statement(rows[0]).value] + Run(rows[1..], statement).0;
      forall j | 0 <= j < |out|
        ensures statement(rows[j]) == Ok(out[j])
      {
        if j > 0 {
          assert rows[j] == rows[1..][j - 1];
        }
      }
    }
  }

  /** `Run` from row i on: that row's statement, then the rest. */
  lemma RunStep<R, E>(rows: seq<R>, i: nat, statement: R -> Result<string, E>)
    requires i < |rows|
    ensures statement(rows[i]).Err? ==> Run(rows[i..], statement) == ([], Some(statement(rows[i]).error))
    ensures statement(rows[i]).Ok? ==>
      Run(rows[i..], statement) == ([statement(rows[i]).value] + Run(rows[i + 1..], statement).0, Run(rows[i + 1..], statement).1)
  {
    assert rows[i..][0] == rows[i];
    assert rows[i..][1..] == rows[i + 1..];
  }

  /** The row loop itself: prints each statement until one raises. */
  method PrintRows<R, E>(rows: seq<R>, statement: R -> Result<string, E>)
    returns (printed: seq<string>, crash: Option<E>)
    ensures printed == Run(rows, statement).0 && crash == Run(rows, statement).1
  {
    printed := [];
    crash := None;
    var i := 0;
    assert rows[0..] == rows;
    while i < |rows|
      invariant 0 <= i <= |rows| && |printed| == i
      invariant printed + Run(rows[i..], statement).0 == Run(rows, statement).0
      invariant Run(rows[i..], statement).1 == Run(rows, statement).1
    {
      var result := statement(rows[i]);
      RunStep(rows, i, statement);
      if result.Err? {
        crash := Some(result.error);
        assert printed + [] == printed;
        return;
      }
      ghost var rest := Run(rows[i + 1..], statement).0;
      assert (printed + [result.value]) + rest == printed + ([result.value] + rest);
      printed := printed + [result.value];
      i := i + 1;
    }
    assert rows[i..] == [];
    assert printed + [] == printed;
  }

  /** A row loop in which nothing raises: one printed statement per row, in order. */
  method PrintEach<R>(rows: seq<R>, statement: R -> string) returns (printed: seq<string>)
    ensures |printed| == |rows|
    ensures forall j :: 0 <= j < |rows| ==> printed[j] == statement(rows[j])
  {
    printed := [];
    var i := 0;
    while i < |rows|
      invariant 0 <= i <= |rows| && |printed| == i
      invariant forall j :: 0 <= j < i ==> printed[j] == statement(rows[j])
    {
      printed := printed + [statement(rows[i])];
      i := i + 1;
    }
  }

  /** `xs.map(f)`, built up one element at a time from the front. */
  function Map<R>(xs: seq<R>, f: R -> string): (r: seq<string>)
    ensures |r| == |xs|
  {
    if xs == [] then [] else Map(xs[..|xs| - 1], f) + [f(xs[|xs| - 1])]
  }

  /** The i-th element of the mapped list is f of the i-th element. */
  lemma {:induction false} MapAt<R>(xs: seq<R>, f: R -> string)
    ensures forall i :: 0 <= i < |xs| ==> Map(xs, f)[i] == f(xs[i])
  {
    if xs != [] {
      var init := xs[..|xs| - 1];
      MapAt(init, f);
      assert forall i :: 0 <= i < |init| ==> xs[i] == init[i];
    }
  }
}
