/**
 * One challenge card of the list pages
 * (`src/frontend/src/components/challenges/ChallengeCard.tsx`): the pillar
 * and difficulty badges, the expanded details with the complete button,
 * and `handleMarkComplete`, which sets `is_completed` on the challenge
 * object it was given.
 */
module ChallengeCard {
  import opened Wrappers
  import opened ChallengeTypes
  import opened Fetch

  const PillarLabels: seq<string> := ["Problem Solving", "Growth Mindset", "Social Skills", "Self-Awareness", "Courage"]
  const DifficultyLabels: seq<string> := ["Easy", "Medium", "Hard"]

  const NoTokenMessage := "No authentication token found"
  const CompleteFailed := "Failed to mark challenge as complete"

  /** Pillars 1 to 4 have their own badge; every other id reads "Courage". */
  function PillarLabel(pillarId: int): (text: string)
    ensures 1 <= pillarId <= 4 ==> text == PillarLabels[pillarId - 1]
    ensures !(1 <= pillarId <= 4) ==> text == "Courage"
  {
    if pillarId == 1 then "Problem Solving"
    else if pillarId == 2 then "Growth Mindset"
    else if pillarId == 3 then "Social Skills"
    else if pillarId == 4 then "Self-Awareness"
    else "Courage"
  }

  /** 1 is Easy, 2 is Medium, every other level is Hard. */
  function DifficultyLabel(level: int): (text: string)
    ensures 1 <= level <= 2 ==> text == DifficultyLabels[level - 1]
    ensures !(1 <= level <= 2) ==> text == "Hard"
  {
    if level == 1 then "Easy" else if level == 2 then "Medium" else "Hard"
  }

  /** Over the pillars 1 to 5 the badge tells the pillar apart; so does the difficulty badge over 1 to 3. */
  lemma LabelsDistinguish(a: int, b: int)
    ensures 1 <= a <= 5 && 1 <= b <= 5 ==> (PillarLabel(a) == PillarLabel(b) <==> a == b)
    ensures 1 <= a <= 3 && 1 <= b <= 3 ==> (DifficultyLabel(a) == DifficultyLabel(b) <==> a == b)
  {
    assert PillarLabels[0][0] != PillarLabels[1][0] && PillarLabels[2][1] != PillarLabels[3][1];
    assert PillarLabels[0][0] != PillarLabels[2][0] && PillarLabels[0][0] != PillarLabels[3][0];
    assert PillarLabels[1][0] != PillarLabels[2][0] && PillarLabels[1][0] != PillarLabels[3][0];
    assert "Courage"[0] !in {PillarLabels[0][0], PillarLabels[1][0], PillarLabels[2][0]} && "Courage"[1] != PillarLabels[3][1];
    assert DifficultyLabels[0][0] != DifficultyLabels[1][0] && DifficultyLabels[0][0] != DifficultyLabels[2][0];
    assert DifficultyLabels[1][0] != DifficultyLabels[2][0];
  }

  const MarkLabel := "Mark Challenge Complete"
  const MarkingLabel := "Marking Complete..."

  /** The `<li>` items of the steps list: one per element of an array, one for a string. */
  function StepItems(steps: Steps): seq<string>
  {
    match steps
    case StepsList(xs) => xs
    case StepsText(t) => [t]
  }

  /** The button at the foot of the expanded card. */
  datatype CompleteButton = CompleteButton(caption: string, disabled: bool)

  /** What the expanded part of the card shows. */
  datatype Details = Details(goal: string, stepItems: seq<string>, dialogue: Option<string>, tip: Option<string>,
                             button: Option<CompleteButton>)

  /**
   * The expanded part of the card: nothing while collapsed; otherwise the
   * goal, one list item per step in order (one item for a plain-text
   * step), the example dialogue and the tip when not empty, and the
   * complete button for a challenge not yet completed, disabled and
   * relabelled while completing.
   */
  function ExpandedContent(c: Challenge, isExpanded: bool, isCompleting: bool): (v: Option<Details>)
    ensures v.Some? <==> isExpanded
    ensures v.Some? ==> v.value.goal == c.goal
    ensures v.Some? && c.steps.StepsList? ==>
      |v.value.stepItems| == |c.steps.items| && forall i :: 0 <= i < |c.steps.items| ==> v.value.stepItems[i] == c.steps.items[i]
    ensures v.Some? && c.steps.StepsText? ==> v.value.stepItems == [c.steps.text]
    ensures v.Some? ==> (v.value.dialogue.Some? <==> c.example_dialogue != "") && (v.value.tip.Some? <==> c.tip != "")
    ensures v.Some? && v.value.dialogue.Some? ==> v.value.dialogue.value == c.example_dialogue
    ensures v.Some? && v.value.tip.Some? ==> v.value.tip.value == c.tip
    ensures (v.Some? && v.value.button.Some?) <==> isExpanded && !c.is_completed
    ensures v.Some? && v.value.button.Some? ==>
      v.value.button.value.disabled == isCompleting
      && v.value.button.value.caption == (if isCompleting then MarkingLabel else MarkLabel)
  {
    if !isExpanded then None
    else
      Some(Details(c.goal, StepItems(c.steps),
                   if c.example_dialogue != "" then Some(c.example_dialogue) else None,
                   if c.tip != "" then Some(c.tip) else None,
                   if !c.is_completed then Some(CompleteButton(if isCompleting then MarkingLabel else MarkLabel, isCompleting))
                   else None))
  }

  /** A string is truthy when it is not empty. */
  predicate Truthy(s: Option<string>)
  {
    s.Some? && s.value != ""
  }

  /** The card's state; `challenge` is the prop object the handler writes into. */
  class Card {
    var challenge: Challenge
    var isExpanded: bool
    var isCompleting: bool
    var error: Option<string>

    /** The expanded part as the card currently renders it. */
    function View(): Option<Details>
      reads this
    {
      ExpandedContent(challenge, isExpanded, isCompleting)
    }

    constructor(challenge: Challenge)
      ensures this.challenge == challenge && !isExpanded && !isCompleting && error == None
    {
      this.challenge := challenge;
      isExpanded := false;
      isCompleting := false;
      error := None;
    }

    /** Show More / Show Less. */
    method ToggleExpanded()
      modifies this
      ensures isExpanded == !old(isExpanded)
      ensures challenge == old(challenge) && isCompleting == old(isCompleting) && error == old(error)
    {
      isExpanded := !isExpanded;
    }

    /**
     * Marks the challenge complete. An already completed challenge is left
     * alone. Otherwise the log request is sent when a token is stored; on
     * success `is_completed` becomes true and nothing else of the challenge
     * changes; on failure the challenge is unchanged and the error is the
     * rejection's message, or, for a non-ok response, the message of reading
     * its body when that fails, else the server's error or the default.
     * `isCompleting` is false afterwards.
     */
    method HandleMarkComplete(token: Option<string>, response: Reply, body: Result<Option<string>, string>)
      returns (posted: bool)
      modifies this
      ensures old(challenge).is_completed ==>
        !posted && challenge == old(challenge) && isCompleting == old(isCompleting) && error == old(error)
      ensures !old(challenge).is_completed ==> !isCompleting && (posted <==> Truthy(token))
      ensures !old(challenge).is_completed && posted && Succeeded(response) ==>
        challenge == old(challenge).(is_completed := true) && error == None
      ensures !old(challenge).is_completed && !(posted && Succeeded(response)) ==>
        challenge == old(challenge) && error.Some?
      ensures !old(challenge).is_completed && !posted ==> error == Some(NoTokenMessage)
      ensures !old(challenge).is_completed && posted && response.Rejected? ==> error == Some(response.message)
      ensures !old(challenge).is_completed && posted && response == Answered(false) ==>
        error == Some(match body
                      case Err(m) => m
                      case Ok(serverError) => if Truthy(serverError) then serverError.value else CompleteFailed)
      ensures isExpanded == old(isExpanded)
      ensures isExpanded ==> View().Some? && (View().value.button.Some? <==> !challenge.is_completed)
      ensures isExpanded && !old(challenge).is_completed ==>
        (View().value.button.None? <==> posted && Succeeded(response))
      ensures View().Some? && View().value.button.Some? ==> !View().value.button.value.disabled
    {
      posted := false;
      if challenge.is_completed {
        return;
      }
      isCompleting := true;
      error := None;
      if !Truthy(token) {
        error := Some(NoTokenMessage);
      } else {
        posted := true;
        if response.Rejected? {
          error := Some(response.message);
        } else if !response.ok {
          match body {
            case Err(m) =>
              error := Some(m);
            case Ok(serverError) =>
              error := Some(if Truthy(serverError) then serverError.value else CompleteFailed);
          }
        } else {
          challenge := challenge.(is_completed := true);
        }
      }
      isCompleting := false;
    }
  }
}
