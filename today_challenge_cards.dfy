/**
 * Today's challenge as a stack of cards
 * (`src/frontend/src/components/dashboard/TodayChallengeCards.tsx`): the six
 * cards, the visible stack, the Next button and the completion flags.
 * How each request ends (`Fetch.Reply`) is a parameter.
 */
module TodayChallengeCards {
  import opened Wrappers
  import opened Fetch

  datatype Challenge = Challenge(id: string, title: string, tip: string, steps: seq<string>,
                                 example_dialogue: string, is_completed: bool)

  datatype CardKind = TipCard | StepCard | DialogueCard | CompletionCard

  /** A card; `None` content is JavaScript's `undefined` for a step the challenge lacks. */
  datatype Card = Card(kind: CardKind, content: Option<string>, cardLabel: string)

  const CardCount := 6

  /** `steps[k]`, or `undefined` past the end. */
  function StepAt(steps: seq<string>, k: nat): (r: Option<string>)
    ensures r.Some? <==> k < |steps|
    ensures k < |steps| ==> r == Some(steps[k])
  {
    if k < |steps| then Some(steps[k]) else None
  }

  /** Tip, the first three steps, the dialogue, the completion card. */
  function Cards(c: Challenge): (r: seq<Card>)
    ensures |r| == CardCount
    ensures r[0].kind == TipCard && r[0].content == Some(c.tip)
    ensures forall k :: 1 <= k <= 3 ==> r[k].kind == StepCard && r[k].content == StepAt(c.steps, k - 1)
    ensures r[4].kind == DialogueCard && r[4].content == Some(c.example_dialogue)
    ensures r[5].kind == CompletionCard
    ensures forall k :: 0 <= k < CardCount ==> (r[k].kind == CompletionCard <==> k == CardCount - 1)
  {
    [Card(TipCard, Some(c.tip), "0"),
     Card(StepCard, StepAt(c.steps, 0), "1"),
     Card(StepCard, StepAt(c.steps, 1), "2"),
     Card(StepCard, StepAt(c.steps, 2), "3"),
     Card(DialogueCard, Some(c.example_dialogue), "4"),
     Card(CompletionCard, None, "5")]
  }

  /** What the component draws. */
  datatype View = NoChallengeAvailable | Stack(cards: seq<Card>, nextOnTop: bool)

  /**
   * No challenge: only the "No Challenge Available" card. Otherwise the
   * cards from `currentCard` on, with Next on the top card unless it is the
   * completion card.
   */
  function Render(challenge: Option<Challenge>, currentCard: nat): (v: View)
    requires currentCard < CardCount
    ensures challenge.None? <==> v == NoChallengeAvailable
    ensures v.Stack? ==> |v.cards| == CardCount - currentCard && v.cards[0] == Cards(challenge.value)[currentCard]
    ensures v.Stack? ==> (v.nextOnTop <==> currentCard < CardCount - 1)
  {
    if challenge.None? then NoChallengeAvailable
    else
      var cards := Cards(challenge.value);
      var top := cards[currentCard];
      Stack(cards[currentCard..], currentCard != |cards| - 1 && top.kind != CompletionCard)
  }

  datatype Request =
    | SaveReflection(child_id: string, challenge_id: string, feeling: int, reflection: string)
    | LogChallenge(child_id: string, challenge_id: string)

  const NoToken := "No authentication token found"
  const ReflectionFailed := "Failed to save reflection"
  const LogFailed := "Failed to mark challenge as complete"

  class TodayCards {
    const challenge: Challenge
    const childId: string
    var currentCard: int
    var isCompleting: bool
    var isCompleted: bool
    var showReflection: bool
    var error: Option<string>
    var requests: seq<Request>
    var completions: nat

    /**
     * The card index is a card, and `isCompleting` is false: nothing in the
     * component sets it to true, so the Mark Complete button is never
     * disabled.
     */
    predicate Valid()
      reads this
    {
      0 <= currentCard < CardCount && !isCompleting
    }

    constructor(challenge: Challenge, childId: string)
      ensures Valid()
      ensures this.challenge == challenge && this.childId == childId
      ensures currentCard == 0 && isCompleted == challenge.is_completed
      ensures !showReflection && error.None? && requests == [] && completions == 0
    {
      this.challenge := challenge;
      this.childId := childId;
      currentCard := 0;
      isCompleting := false;
      isCompleted := challenge.is_completed;
      showReflection := false;
      error := None;
      requests := [];
      completions := 0;
    }

    /** Next: drawn only where `Render` puts it, and moves one card on. */
    method PressNext()
      requires Valid() && Render(Some(challenge), currentCard).nextOnTop
      modifies this
      ensures Valid()
      ensures currentCard == old(currentCard) + 1
      ensures isCompleted == old(isCompleted) && showReflection == old(showReflection) && requests == old(requests)
      ensures error == old(error) && completions == old(completions)
    {
      currentCard := currentCard + 1;
    }

    /** Mark Challenge Complete opens the reflection dialog. */
    method HandleMarkComplete()
      requires Valid()
      modifies this
      ensures Valid()
      ensures showReflection
      ensures currentCard == old(currentCard) && isCompleted == old(isCompleted) && requests == old(requests)
      ensures error == old(error) && completions == old(completions)
    {
      showReflection := true;
    }

    /** Closing the dialog. */
    method CloseReflection()
      requires Valid()
      modifies this
      ensures Valid()
      ensures !showReflection
      ensures currentCard == old(currentCard) && isCompleted == old(isCompleted) && requests == old(requests)
      ensures error == old(error) && completions == old(completions)
    {
      showReflection := false;
      isCompleting := false;
    }

    /**
     * The dialog's submit: with a token, save the reflection and, only if
     * that succeeds, log the challenge. The challenge becomes completed only
     * when both succeed; a failure shows the rejection's message or the
     * step's own text; the dialog closes either way.
     */
    method HandleReflectionSubmit(feeling: int, reflection: string, hasToken: bool, reflectionReply: Reply,
                                  logReply: Reply, hasOnComplete: bool)
      requires Valid()
      modifies this
      ensures Valid()
      ensures !showReflection
      ensures requests == old(requests)
        + (if hasToken then [SaveReflection(childId, challenge.id, feeling, reflection)] else [])
        + (if hasToken && Succeeded(reflectionReply) then [LogChallenge(childId, challenge.id)] else [])
      ensures isCompleted == (old(isCompleted) || (hasToken && Succeeded(reflectionReply) && Succeeded(logReply)))
      ensures completions == old(completions)
        + (if hasToken && Succeeded(reflectionReply) && Succeeded(logReply) && hasOnComplete then 1 else 0)
      ensures !hasToken ==> error == Some(NoToken)
      ensures hasToken && !Succeeded(reflectionReply) ==>
        error == Some(if reflectionReply.Rejected? then reflectionReply.message else ReflectionFailed)
      ensures hasToken && Succeeded(reflectionReply) && !Succeeded(logReply) ==>
        error == Some(if logReply.Rejected? then logReply.message else LogFailed)
      ensures hasToken && Succeeded(reflectionReply) && Succeeded(logReply) ==> error == old(error)
      ensures currentCard == old(currentCard)
    {
      if !hasToken {
        error := Some(NoToken);
      } else {
        requests := requests + [SaveReflection(childId, challenge.id, feeling, reflection)];
        if !Succeeded(reflectionReply) {
          error := Some(FailureMessage(reflectionReply, ReflectionFailed));
        } else {
          requests := requests + [LogChallenge(childId, challenge.id)];
          if !Succeeded(logReply) {
            error := Some(FailureMessage(logReply, LogFailed));
          } else {
            isCompleted := true;
            if hasOnComplete {
              completions := completions + 1;
            }
          }
        }
      }
      isCompleting := false;
      showReflection := false;
    }
  }
}
