/**
 * The challenge types listed in an expanded pillar
 * (`src/frontend/src/components/pillars/ExpandedPillar.tsx`): the reduce
 * that keeps the first challenge of each title, and what the expanded panel
 * renders.
 */
module ExpandedPillar {
  import opened Lists
  import opened ChallengeTypes

  /**
   * `uniqueChallenges`: push a challenge unless the accumulator already
   * holds one with its title.
   */
  method UniqueChallenges(challenges: seq<Challenge>) returns (acc: seq<Challenge>)
    ensures acc == DistinctBy(challenges, TitleOf())
  {
    acc := [];
    var i := 0;
    while i < |challenges|
      invariant 0 <= i <= |challenges|
      invariant acc == DistinctBy(challenges[..i], TitleOf())
    {
      assert challenges[..i + 1][..i] == challenges[..i];
      var found := exists k :: 0 <= k < |acc| && acc[k].title == challenges[i].title;
      assert found <==> exists k :: 0 <= k < |acc| && TitleOf()(acc[k]) == TitleOf()(challenges[i]);
      if !found {
        acc := acc + [challenges[i]];
      }
      i := i + 1;
    }
    assert challenges[..i] == challenges;
  }

  /**
   * The deduplicated list: titles pairwise distinct, every input title
   * present, the first challenge of each title kept, input order kept, and a
   * second pass changes nothing.
   */
  lemma UniqueChallengesProps(challenges: seq<Challenge>)
    ensures var u := DistinctBy(challenges, TitleOf());
      (forall i, j :: 0 <= i < j < |u| ==> u[i].title != u[j].title)
      && (forall c :: c in challenges ==> exists i :: 0 <= i < |u| && u[i].title == c.title)
      && (forall j :: 0 <= j < |challenges| && (forall k :: 0 <= k < j ==> challenges[k].title != challenges[j].title) ==> challenges[j] in u)
      && SubsequenceOf(u, challenges)
      && DistinctBy(u, TitleOf()) == u
  {
    var u := DistinctBy(challenges, TitleOf());
    DistinctByUnique(challenges, TitleOf());
    assert forall i, j :: 0 <= i < j < |u| ==> u[i].title != u[j].title by {
      forall i, j | 0 <= i < j < |u| ensures u[i].title != u[j].title {
        assert TitleOf()(u[i]) != TitleOf()(u[j]);
      }
    }
    forall c | c in challenges ensures exists i :: 0 <= i < |u| && u[i].title == c.title {
      DistinctByCovers(challenges, TitleOf(), c);
      var i :| 0 <= i < |u| && TitleOf()(u[i]) == TitleOf()(c);
      assert u[i].title == c.title;
    }
    forall j | 0 <= j < |challenges| && (forall k :: 0 <= k < j ==> challenges[k].title != challenges[j].title)
      ensures challenges[j] in u
    {
      DistinctByFirst(challenges, TitleOf(), j);
    }
    DistinctByOrder(challenges, TitleOf());
    DistinctByTwice(challenges, TitleOf());
  }

  /** What the panel lists: nothing while collapsed, the deduplicated challenges once expanded. */
  function RenderedChallenges(isExpanded: bool, challenges: seq<Challenge>): (r: seq<Challenge>)
    ensures !isExpanded ==> r == []
    ensures isExpanded ==> r == DistinctBy(challenges, TitleOf())
  {
    if isExpanded then DistinctBy(challenges, TitleOf()) else []
  }
}
