/**
 * The all-challenges page (`src/frontend/src/pages/AllChallengesPage.tsx`):
 * the child auto-selection, the pillar/difficulty filter and what the page
 * shows. A selection is `number | null`; as a JavaScript condition both
 * `null` and `0` mean "no filter".
 */
module AllChallengesPage {
  import opened Wrappers
  import opened Lists
  import opened ChallengeTypes

  datatype Child = Child(id: string, name: string)

  /** `selected && ...`: a selection filters only when it is a non-zero number. */
  predicate Active(selected: Option<int>)
  {
    selected.Some? && selected.value != 0
  }

  /** The filter callback: a challenge is dropped when an active selection differs from its field. */
  function Matches(selectedPillar: Option<int>, selectedDifficulty: Option<int>): Challenge -> bool
  {
    (c: Challenge) =>
      !(Active(selectedPillar) && c.pillar_id != selectedPillar.value)
      && !(Active(selectedDifficulty) && c.difficulty_level != selectedDifficulty.value)
  }

  function FilteredChallenges(challenges: seq<Challenge>, selectedPillar: Option<int>, selectedDifficulty: Option<int>): (r: seq<Challenge>)
    ensures |r| <= |challenges|
  {
    Filter(challenges, Matches(selectedPillar, selectedDifficulty))
  }

  /** With neither selection active, nothing is filtered out. */
  lemma NoSelectionKeepsAll(challenges: seq<Challenge>, selectedPillar: Option<int>, selectedDifficulty: Option<int>)
    requires !Active(selectedPillar) && !Active(selectedDifficulty)
    ensures FilteredChallenges(challenges, selectedPillar, selectedDifficulty) == challenges
  {
    FilterAll(challenges, Matches(selectedPillar, selectedDifficulty));
  }

  /**
   * A challenge is kept exactly when it is in the list and agrees with each
   * active selection; the kept ones are in list order.
   */
  lemma FilterExact(challenges: seq<Challenge>, selectedPillar: Option<int>, selectedDifficulty: Option<int>, c: Challenge)
    ensures c in FilteredChallenges(challenges, selectedPillar, selectedDifficulty)
      <==> (c in challenges
            && (Active(selectedPillar) ==> c.pillar_id == selectedPillar.value)
            && (Active(selectedDifficulty) ==> c.difficulty_level == selectedDifficulty.value))
    ensures SubsequenceOf(FilteredChallenges(challenges, selectedPillar, selectedDifficulty), challenges)
  {
    FilterMembers(challenges, Matches(selectedPillar, selectedDifficulty), c);
    FilterOrder(challenges, Matches(selectedPillar, selectedDifficulty));
  }

  /** After the children are fetched: the only child is selected, otherwise the selection stays. */
  function AutoSelected(previous: Option<Child>, children: seq<Child>): (r: Option<Child>)
    ensures |children| == 1 ==> r == Some(children[0])
    ensures |children| != 1 ==> r == previous
  {
    if |children| == 1 then Some(children[0]) else previous
  }

  /** What the page body shows. */
  datatype View =
    | SelectChildPrompt
    | Loading
    | Failed(error: string)
    | NoChallenges
    | Grid(cards: seq<Challenge>)

  /** The body as written: the empty test and the grid both use the unfiltered list. */
  function PageView(selectedChild: Option<Child>, isLoading: bool, error: Option<string>,
                    challenges: seq<Challenge>, selectedPillar: Option<int>, selectedDifficulty: Option<int>): (v: View)
    ensures selectedChild.Some? && !isLoading && error.None? ==>
      (v == NoChallenges <==> challenges == []) && (v.Grid? ==> v.cards == challenges)
  {
    if selectedChild.None? then SelectChildPrompt
    else if isLoading then Loading
    else if error.Some? then Failed(error.value)
    else if |challenges| == 0 then NoChallenges
    else Grid(challenges)
  }

  /** The body with the grid and the empty test on `filteredChallenges`. */
  function FilteredPageView(selectedChild: Option<Child>, isLoading: bool, error: Option<string>,
                            challenges: seq<Challenge>, selectedPillar: Option<int>, selectedDifficulty: Option<int>): (v: View)
    ensures selectedChild.Some? && !isLoading && error.None? ==>
      (v == NoChallenges <==> FilteredChallenges(challenges, selectedPillar, selectedDifficulty) == [])
      && (v.Grid? ==> v.cards == FilteredChallenges(challenges, selectedPillar, selectedDifficulty))
    ensures !(selectedChild.Some? && !isLoading && error.None?) ==>
      v == PageView(selectedChild, isLoading, error, challenges, selectedPillar, selectedDifficulty)
  {
    var filtered := FilteredChallenges(challenges, selectedPillar, selectedDifficulty);
    if selectedChild.None? then SelectChildPrompt
    else if isLoading then Loading
    else if error.Some? then Failed(error.value)
    else if |filtered| == 0 then NoChallenges
    else Grid(filtered)
  }

  /** As written, the selections never change the page. */
  lemma SelectionsIgnored(selectedChild: Option<Child>, isLoading: bool, error: Option<string>,
                          challenges: seq<Challenge>, p1: Option<int>, d1: Option<int>, p2: Option<int>, d2: Option<int>)
    ensures PageView(selectedChild, isLoading, error, challenges, p1, d1)
         == PageView(selectedChild, isLoading, error, challenges, p2, d2)
  {
  }

  /** A sample challenge of pillar 2, difficulty 1. */
  function SampleChallenge(): Challenge
  {
    Challenge("c1", "Share a toy", "", "", StepsText(""), "", "", 2, "3-5", 1, false)
  }

  /**
   * As written, filtering on pillar 1 still shows a pillar-2 challenge, where
   * "No challenges found for the selected filters." was meant.
   */
  lemma NonMatchingChallengeShown()
    ensures PageView(Some(Child("k", "Kid")), false, None, [SampleChallenge()], Some(1), None) == Grid([SampleChallenge()])
    ensures FilteredPageView(Some(Child("k", "Kid")), false, None, [SampleChallenge()], Some(1), None) == NoChallenges
  {
    var c := SampleChallenge();
    FilterExact([c], Some(1), None, c);
  }

  /** In the filtered view every card shown agrees with both active selections. */
  lemma FilteredCardsMatch(selectedChild: Option<Child>, isLoading: bool, error: Option<string>,
                           challenges: seq<Challenge>, selectedPillar: Option<int>, selectedDifficulty: Option<int>, c: Challenge)
    requires FilteredPageView(selectedChild, isLoading, error, challenges, selectedPillar, selectedDifficulty).Grid?
    requires c in FilteredPageView(selectedChild, isLoading, error, challenges, selectedPillar, selectedDifficulty).cards
    ensures c in challenges
    ensures Active(selectedPillar) ==> c.pillar_id == selectedPillar.value
    ensures Active(selectedDifficulty) ==> c.difficulty_level == selectedDifficulty.value
  {
    FilterExact(challenges, selectedPillar, selectedDifficulty, c);
  }
}
