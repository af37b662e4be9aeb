/**
 * The card-by-card challenge viewer
 * (`src/frontend/src/components/challenges/UniversalChallengeModal.tsx`):
 * six cards stepped through with Back and Next, a confidence rating picked
 * from five faces, and the two requests of Complete Challenge. Whether each
 * request succeeds is a parameter.
 */
module UniversalChallengeModal {

  datatype Challenge = Challenge(id: string, title: string, what_you_practice: string, start_prompt: string,
                                 guide_prompt: string, success_signals: string, why_it_matters: string)

  datatype CardKind = PracticeCard | StartCard | GuideCard | SuccessCard | WhyCard | ReflectionCard

  /** A card; the reflection card has no text content. */
  datatype Card = Card(kind: CardKind, icon: string, title: string, content: string)

  const EmojiFaces: seq<string> := ["\U{1F616}", "\U{1F610}", "\U{1F642}", "\U{1F604}", "\U{1F929}"]
  const ConfidenceLabels: seq<string> := ["Not Confident", "A Little Unsure", "Feeling Okay", "Pretty Confident", "Super Confident"]

  /** The index of the last card. */
  const LastCard := 5

  function Cards(c: Challenge): (r: seq<Card>)
    ensures |r| == LastCard + 1
    ensures r[LastCard].kind == ReflectionCard
    ensures forall i :: 0 <= i < LastCard ==> r[i].kind != ReflectionCard
  {
    [Card(PracticeCard, "\U{1F3AF}", "What You'll Practice", c.what_you_practice),
     Card(StartCard, "\U{1F680}", "Getting Started", c.start_prompt),
     Card(GuideCard, "\U{1F4DA}", "Guide Prompt", c.guide_prompt),
     Card(SuccessCard, "\U{2728}", "Success Signals", c.success_signals),
     Card(WhyCard, "\U{1F4A1}", "Why It Matters", c.why_it_matters),
     Card(ReflectionCard, "\U{2705}", "How Did It Go?", "")]
  }

  /** Back: `Math.max(0, prev - 1)`. */
  function Back(step: int): (r: int)
    ensures r >= 0 && (step >= 1 ==> r == step - 1)
  {
    if 0 > step - 1 then 0 else step - 1
  }

  /** Next: `Math.min(cards.length - 1, prev + 1)`. */
  function Next(step: int): (r: int)
    ensures r <= LastCard && (step < LastCard ==> r == step + 1)
  {
    if LastCard < step + 1 then LastCard else step + 1
  }

  /**
   * Both buttons keep the card index in 0..5; Back on the first card and
   * Next on the last do nothing; elsewhere each undoes the other.
   */
  lemma BackNextClamp(step: int)
    requires 0 <= step <= LastCard
    ensures 0 <= Back(step) <= LastCard && 0 <= Next(step) <= LastCard
    ensures Back(0) == 0 && Next(LastCard) == LastCard
    ensures step < LastCard ==> Back(Next(step)) == step
    ensures step > 0 ==> Next(Back(step)) == step
  {
  }

  /** The range the reflection endpoint accepts (`src/backend/api/reflection.ts`). */
  predicate FeelingAccepted(feeling: int)
  {
    1 <= feeling <= 5
  }

  datatype Request =
    | SaveReflection(child_id: string, challenge_id: string, feeling: int, reflection: string)
    | LogChallenge(child_id: string, challenge_id: string)

  class Modal {
    const challenge: Challenge
    const childId: string
    var currentStep: int
    var feeling: int
    var reflection: string
    var isSubmitting: bool
    /** The requests sent so far. */
    var requests: seq<Request>
    /** How often `onComplete` and `onClose` have run. */
    var completions: nat
    var closes: nat

    /** The card index is a card and the feeling a face. */
    predicate Valid()
      reads this
    {
      0 <= currentStep <= LastCard && 1 <= feeling <= |EmojiFaces|
    }

    constructor(challenge: Challenge, childId: string)
      ensures Valid()
      ensures this.challenge == challenge && this.childId == childId
      ensures currentStep == 0 && feeling == 3 && reflection == "" && !isSubmitting
      ensures requests == [] && completions == 0 && closes == 0
    {
      this.challenge := challenge;
      this.childId := childId;
      currentStep := 0;
      feeling := 3;
      reflection := "";
      isSubmitting := false;
      requests := [];
      completions := 0;
      closes := 0;
    }

    method PressBack()
      requires Valid()
      modifies this
      ensures Valid()
      ensures currentStep == Back(old(currentStep))
      ensures feeling == old(feeling) && reflection == old(reflection) && requests == old(requests)
      ensures completions == old(completions) && closes == old(closes) && isSubmitting == old(isSubmitting)
    {
      currentStep := Back(currentStep);
    }

    /** Next is drawn on every card but the reflection card. */
    method PressNext()
      requires Valid() && Cards(challenge)[currentStep].kind != ReflectionCard
      modifies this
      ensures Valid()
      ensures currentStep == Next(old(currentStep)) == old(currentStep) + 1
      ensures feeling == old(feeling) && reflection == old(reflection) && requests == old(requests)
      ensures completions == old(completions) && closes == old(closes) && isSubmitting == old(isSubmitting)
    {
      currentStep := Next(currentStep);
    }

    /** A click on face `index`: the rating is `index + 1`. The faces are drawn only on the reflection card. */
    method PickFace(index: int)
      requires Valid() && Cards(challenge)[currentStep].kind == ReflectionCard && 0 <= index < |EmojiFaces|
      modifies this
      ensures Valid()
      ensures feeling == index + 1
      ensures currentStep == old(currentStep) && reflection == old(reflection) && requests == old(requests)
      ensures completions == old(completions) && closes == old(closes) && isSubmitting == old(isSubmitting)
    {
      feeling := index + 1;
    }

    /** The label under the faces, `confidenceLabels[feeling - 1]`. */
    function FeelingLabel(): (text: string)
      requires Valid()
      reads this
      ensures text in ConfidenceLabels
    {
      ConfidenceLabels[feeling - 1]
    }

    /**
     * Complete Challenge: save the reflection, and only when that succeeds
     * log the challenge; `onComplete` (when given) and `onClose` run only
     * when both succeed. The rating sent is one the endpoint accepts. The
     * Complete Challenge button is drawn only on the reflection card.
     */
    method HandleReflectionSubmit(reflectionOk: bool, logOk: bool, hasOnComplete: bool)
      requires Valid() && Cards(challenge)[currentStep].kind == ReflectionCard
      modifies this
      ensures Valid()
      ensures requests == old(requests) + [SaveReflection(childId, challenge.id, feeling, reflection)]
        + (if reflectionOk then [LogChallenge(childId, challenge.id)] else [])
      ensures FeelingAccepted(requests[|old(requests)|].feeling)
      ensures completions == old(completions) + (if reflectionOk && logOk && hasOnComplete then 1 else 0)
      ensures closes == old(closes) + (if reflectionOk && logOk then 1 else 0)
      ensures !isSubmitting
      ensures currentStep == old(currentStep) && feeling == old(feeling) && reflection == old(reflection)
    {
      isSubmitting := true;
      requests := requests + [SaveReflection(childId, challenge.id, feeling, reflection)];
      if reflectionOk {
        requests := requests + [LogChallenge(childId, challenge.id)];
        if logOk {
          if hasOnComplete {
            completions := completions + 1;
          }
          closes := closes + 1;
        }
      }
      isSubmitting := false;
    }
  }
}
