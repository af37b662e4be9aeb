/**
 * Recording a completed practice step (`src/backend/api/practice_progress.ts`):
 * the `practice_progress` table as a map from (child, module) to its row,
 * whose `completed_steps` is a comma-separated list of step ids. A body
 * field that is missing or empty is `None` or `""`; whether the database
 * calls succeed is a parameter.
 */
module PracticeProgress {
  import opened Wrappers
  import opened Text

  datatype ProgressRow = ProgressRow(step_id: string, completed_steps: string)

  datatype Status = Ok200 | MissingFields400 | Failed500

  predicate Present(x: Option<string>)
  {
    x.Some? && x.value != ""
  }

  /**
   * The update of an existing row: split on ',', push the step if it is not
   * there, join with ','.
   */
  function AddStep(completed: string, step: string): string
  {
    var parts := Split(completed, ',');
    if step in parts then Join(parts, ",") else Join(parts + [step], ",")
  }

  /**
   * With a comma-free step id, the list is unchanged when the step is in
   * it, and otherwise gains exactly the step at the end; nothing is lost
   * on the way through split and join.
   */
  lemma AddStepSplits(completed: string, step: string)
    requires ',' !in step
    ensures step in Split(completed, ',') ==> AddStep(completed, step) == completed
    ensures step !in Split(completed, ',') ==>
      AddStep(completed, step) == completed + "," + step
      && Split(AddStep(completed, step), ',') == Split(completed, ',') + [step]
  {
    var parts := Split(completed, ',');
    JoinSplit(completed, ',');
    if step !in parts {
      JoinAppend(parts, step, ",");
      var grown := parts + [step];
      assert forall i :: 0 <= i < |grown| ==> ',' !in grown[i] by {
        forall i | 0 <= i < |grown| ensures ',' !in grown[i] {
          if i < |parts| {
            assert grown[i] == parts[i];
          }
        }
      }
      SplitJoin(grown, ',');
    }
  }

  /** Recording the same step twice is recording it once. */
  lemma AddStepIdempotent(completed: string, step: string)
    requires ',' !in step
    ensures AddStep(AddStep(completed, step), step) == AddStep(completed, step)
  {
    AddStepSplits(completed, step);
    var once := AddStep(completed, step);
    if step !in Split(completed, ',') {
      var grown := Split(completed, ',') + [step];
      assert grown[|grown| - 1] == step;
    }
    AddStepSplits(once, step);
  }

  /** The earlier entries keep their places: the old list is a prefix of the new one. */
  lemma AddStepKeepsEntries(completed: string, step: string)
    requires ',' !in step
    ensures var after := Split(AddStep(completed, step), ',');
      |Split(completed, ',')| <= |after| && after[..|Split(completed, ',')|] == Split(completed, ',')
  {
    AddStepSplits(completed, step);
    var parts := Split(completed, ',');
    if step !in parts {
      assert (parts + [step])[..|parts|] == parts;
    }
  }

  class ProgressTable {
    var rows: map<(string, string), ProgressRow>

    constructor(rows: map<(string, string), ProgressRow>)
      ensures this.rows == rows
    {
      this.rows := rows;
    }

    /**
     * The POST handler: 400 without all three fields; otherwise the step is
     * added to the existing row's list, or a row is created whose list is
     * the step alone. A failing database gives 500 and writes nothing.
     */
    method RecordStep(child_id: Option<string>, module_id: Option<string>, step_id: Option<string>, dbOk: bool)
      returns (status: Status)
      modifies this
      ensures !(Present(child_id) && Present(module_id) && Present(step_id)) ==>
        status == MissingFields400 && rows == old(rows)
      ensures Present(child_id) && Present(module_id) && Present(step_id) && !dbOk ==>
        status == Failed500 && rows == old(rows)
      ensures Present(child_id) && Present(module_id) && Present(step_id) && dbOk ==>
        var key := (child_id.value, module_id.value);
        status == Ok200
        && (key in old(rows) ==>
              rows == old(rows)[key := old(rows)[key].(completed_steps := AddStep(old(rows)[key].completed_steps, step_id.value))])
        && (key !in old(rows) ==> rows == old(rows)[key := ProgressRow(step_id.value, step_id.value)])
    {
      if !(Present(child_id) && Present(module_id) && Present(step_id)) {
        return MissingFields400;
      }
      if !dbOk {
        return Failed500;
      }
      var key := (child_id.value, module_id.value);
      var step := step_id.value;
      if key in rows {
        var existing := rows[key];
        var completedSteps := Split(existing.completed_steps, ',');
        if step !in completedSteps {
          completedSteps := completedSteps + [step];
        }
        rows := rows[key := existing.(completed_steps := Join(completedSteps, ","))];
      } else {
        rows := rows[key := ProgressRow(step, step)];
      }
      return Ok200;
    }
  }
}
