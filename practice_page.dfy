/**
 * The practice-module player (`src/frontend/src/pages/PracticePage.tsx`):
 * the (module, step) position advanced after an answer or a reflection,
 * the selected option and the progress bar. The route's `child_id` is a
 * string, `""` standing for a missing one (both are false in JavaScript);
 * whether the progress request reaches the server is a parameter, and the
 * 1.5-second delay before advancing after an answer is not modelled.
 */
module PracticePage {
  import opened Wrappers

  datatype PracticeStep = PracticeStep(id: string, title: string, content: string)
  datatype PracticeModule = PracticeModule(id: string, pillar_id: int, steps: seq<PracticeStep>)

  /** A progress request: child, module and step. */
  datatype ProgressPost = ProgressPost(child_id: string, module_id: string, step_id: string)

  const UpdateFailed := "Failed to update progress. Please try again."

  /**
   * The next position: the next step of the module, else the first step of
   * the next module, else where it is.
   */
  function Advance(modules: seq<PracticeModule>, m: nat, s: nat): (p: (nat, nat))
    requires m < |modules|
    ensures m <= p.0 < |modules|
    ensures p.0 == m ==> p.1 >= s
  {
    if s < |modules[m].steps| - 1 then (m, s + 1)
    else if m < |modules| - 1 then (m + 1, 0)
    else (m, s)
  }

  /** `(a, b)` comes at or after `(m, s)` in (module, step) order. */
  predicate AtOrAfter(a: (nat, nat), m: nat, s: nat)
  {
    a.0 > m || (a.0 == m && a.1 >= s)
  }

  /**
   * Advancing never goes back, and it stays put only on the last step (or
   * beyond) of the last module.
   */
  lemma AdvanceForward(modules: seq<PracticeModule>, m: nat, s: nat)
    requires m < |modules|
    ensures AtOrAfter(Advance(modules, m, s), m, s)
    ensures Advance(modules, m, s) == (m, s) <==> m == |modules| - 1 && s >= |modules[m].steps| - 1
  {
  }

  /** Every module has a step. */
  predicate NoEmptyModule(modules: seq<PracticeModule>)
  {
    forall i :: 0 <= i < |modules| ==> |modules[i].steps| > 0
  }

  /** From a position in bounds, advancing stays in bounds. */
  lemma AdvanceInBounds(modules: seq<PracticeModule>, m: nat, s: nat)
    requires NoEmptyModule(modules)
    requires m < |modules| && s < |modules[m].steps|
    ensures var p := Advance(modules, m, s);
      p.0 < |modules| && p.1 < |modules[p.0].steps|
  {
  }

  /** `((step + 1) / steps.length) * 100`. */
  function ProgressPercent(s: nat, stepCount: nat): (p: real)
    requires stepCount > 0
    ensures s < stepCount ==> 0.0 < p <= 100.0
    ensures s < stepCount ==> (p == 100.0 <==> s == stepCount - 1)
  {
    ((s + 1) as real / stepCount as real) * 100.0
  }

  class Practice {
    var childId: string
    var modules: seq<PracticeModule>
    var currentModuleIndex: nat
    var currentStepIndex: nat
    var selectedOption: Option<int>
    var reflectionText: string
    var error: Option<string>
    /** The progress requests sent so far. */
    var posted: seq<ProgressPost>

    constructor(childId: string, modules: seq<PracticeModule>)
      ensures this.childId == childId && this.modules == modules
      ensures currentModuleIndex == 0 && currentStepIndex == 0
      ensures selectedOption.None? && reflectionText == "" && error.None? && posted == []
    {
      this.childId := childId;
      this.modules := modules;
      currentModuleIndex := 0;
      currentStepIndex := 0;
      selectedOption := None;
      reflectionText := "";
      error := None;
      posted := [];
    }

    /** The option buttons are disabled once an option is selected. */
    predicate OptionsDisabled()
      reads this
    {
      selectedOption.Some?
    }

    /** The guard both handlers start with: a child id and a current module. */
    predicate Ready()
      reads this
    {
      childId != "" && currentModuleIndex < |modules|
    }

    /**
     * `handleOptionSelect`: select the option, post the step, then advance
     * and clear the selection; when no further step exists the selection
     * stays and the options stay disabled. A failed request sets the error
     * and leaves the position.
     */
    method HandleOptionSelect(optionIndex: int, reachable: bool)
      requires !OptionsDisabled()
      modifies this
      ensures !old(Ready()) ==>
        currentModuleIndex == old(currentModuleIndex) && currentStepIndex == old(currentStepIndex)
        && selectedOption == old(selectedOption) && posted == old(posted) && error == old(error)
      ensures old(Ready()) && old(currentStepIndex) >= |old(modules)[old(currentModuleIndex)].steps| ==>
        selectedOption == Some(optionIndex) && posted == old(posted)
        && currentModuleIndex == old(currentModuleIndex) && currentStepIndex == old(currentStepIndex)
      ensures old(Ready()) && old(currentStepIndex) < |old(modules)[old(currentModuleIndex)].steps| ==>
        var m := old(currentModuleIndex);
        var s := old(currentStepIndex);
        posted == old(posted) + [ProgressPost(old(childId), old(modules)[m].id, old(modules)[m].steps[s].id)]
        && (reachable ==>
              (currentModuleIndex, currentStepIndex) == Advance(old(modules), m, s)
              && error == old(error)
              && (selectedOption.None? <==> Advance(old(modules), m, s) != (m, s))
              && (selectedOption.Some? ==> selectedOption == Some(optionIndex)))
        && (!reachable ==>
              currentModuleIndex == m && currentStepIndex == s
              && error == Some(UpdateFailed) && selectedOption == Some(optionIndex))
      ensures childId == old(childId) && modules == old(modules) && reflectionText == old(reflectionText)
    {
      if !(childId != "" && currentModuleIndex < |modules|) {
        return;
      }
      selectedOption := Some(optionIndex);
      var current := modules[currentModuleIndex];
      if currentStepIndex >= |current.steps| {
        // reading the missing step's options throws outside the try block
        return;
      }
      posted := posted + [ProgressPost(childId, current.id, current.steps[currentStepIndex].id)];
      if !reachable {
        error := Some(UpdateFailed);
        return;
      }
      if currentStepIndex < |current.steps| - 1 {
        currentStepIndex := currentStepIndex + 1;
        selectedOption := None;
      } else if currentModuleIndex < |modules| - 1 {
        currentModuleIndex := currentModuleIndex + 1;
        currentStepIndex := 0;
        selectedOption := None;
      }
    }

    /**
     * `handleReflectionSubmit`: post the step, then advance and clear the
     * reflection text. A failed request (or a missing step, whose id cannot
     * be read) sets the error and leaves the position.
     */
    method HandleReflectionSubmit(reachable: bool)
      modifies this
      ensures !old(Ready()) ==>
        currentModuleIndex == old(currentModuleIndex) && currentStepIndex == old(currentStepIndex)
        && reflectionText == old(reflectionText) && posted == old(posted) && error == old(error)
      ensures old(Ready()) && old(currentStepIndex) >= |old(modules)[old(currentModuleIndex)].steps| ==>
        error == Some(UpdateFailed) && posted == old(posted) && reflectionText == old(reflectionText)
        && currentModuleIndex == old(currentModuleIndex) && currentStepIndex == old(currentStepIndex)
      ensures old(Ready()) && old(currentStepIndex) < |old(modules)[old(currentModuleIndex)].steps| ==>
        var m := old(currentModuleIndex);
        var s := old(currentStepIndex);
        posted == old(posted) + [ProgressPost(old(childId), old(modules)[m].id, old(modules)[m].steps[s].id)]
        && (reachable ==>
              (currentModuleIndex, currentStepIndex) == Advance(old(modules), m, s)
              && error == old(error)
              && (Advance(old(modules), m, s) != (m, s) ==> reflectionText == "")
              && (Advance(old(modules), m, s) == (m, s) ==> reflectionText == old(reflectionText)))
        && (!reachable ==>
              currentModuleIndex == m && currentStepIndex == s
              && error == Some(UpdateFailed) && reflectionText == old(reflectionText))
      ensures childId == old(childId) && modules == old(modules) && selectedOption == old(selectedOption)
    {
      if !(childId != "" && currentModuleIndex < |modules|) {
        return;
      }
      var current := modules[currentModuleIndex];
      if currentStepIndex >= |current.steps| {
        error := Some(UpdateFailed);
        return;
      }
      posted := posted + [ProgressPost(childId, current.id, current.steps[currentStepIndex].id)];
      if !reachable {
        error := Some(UpdateFailed);
        return;
      }
      if currentStepIndex < |current.steps| - 1 {
        currentStepIndex := currentStepIndex + 1;
        reflectionText := "";
      } else if currentModuleIndex < |modules| - 1 {
        currentModuleIndex := currentModuleIndex + 1;
        currentStepIndex := 0;
        reflectionText := "";
      }
    }
  }
}
