/**
 * The trophy case (`src/frontend/src/components/rewards/TrophyCase.tsx`):
 * the rewards split by type into three sections, each sorted by a numeric
 * key. `Array.prototype.sort` is stable, as `Lists.SortBy` is.
 */
module TrophyCase {
  import opened Wrappers
  import opened Lists

  datatype Reward = Reward(id: string, rewardType: string, title: string, icon: string,
                           criteria_value: int, pillar_id: Option<int>)

  /** What the component renders: the placeholder, or the three sections (an empty one is not drawn). */
  datatype Case = Placeholder | Sections(milestones: seq<Reward>, streaks: seq<Reward>, pillars: seq<Reward>)

  function OfType(t: string): Reward -> bool
  {
    (r: Reward) => r.rewardType == t
  }

  /** `pillar_id || 0`: a missing id sorts as 0. */
  function PillarKey(r: Reward): int
  {
    if r.pillar_id.Some? then r.pillar_id.value else 0
  }

  /** The comparator `a.criteria_value - b.criteria_value`, as "a may come first". */
  function ByCriteria(): (Reward, Reward) -> bool
  {
    (a: Reward, b: Reward) => a.criteria_value <= b.criteria_value
  }

  /** The comparator `(a.pillar_id || 0) - (b.pillar_id || 0)`. */
  function ByPillar(): (Reward, Reward) -> bool
  {
    (a: Reward, b: Reward) => PillarKey(a) <= PillarKey(b)
  }

  /** One section: the rewards of type `t`, sorted by `le`. */
  function Section(rewards: seq<Reward>, t: string, le: (Reward, Reward) -> bool): (r: seq<Reward>)
    ensures |r| <= |rewards|
    ensures forall i :: 0 <= i < |r| ==> r[i].rewardType == t
  {
    var kept := Filter(rewards, OfType(t));
    var sorted := SortBy(kept, le);
    assert |sorted| == |kept| by {
      assert |multiset(sorted)| == |multiset(kept)|;
    }
    assert forall i :: 0 <= i < |sorted| ==> sorted[i].rewardType == t by {
      forall i | 0 <= i < |sorted| ensures sorted[i].rewardType == t {
        assert sorted[i] in multiset(kept);
        FilterMembers(rewards, OfType(t), sorted[i]);
      }
    }
    sorted
  }

  function Trophies(rewards: Option<seq<Reward>>): (c: Case)
    ensures c.Placeholder? <==> rewards.None? || rewards.value == []
  {
    if rewards.None? || |rewards.value| == 0 then Placeholder
    else
      Sections(Section(rewards.value, "milestone", ByCriteria()),
               Section(rewards.value, "streak", ByCriteria()),
               Section(rewards.value, "pillar", ByPillar()))
  }

  lemma ComparatorsArePreorders()
    ensures TotalPreorder(ByCriteria()) && TotalPreorder(ByPillar())
  {
  }

  /**
   * A section is a permutation of the rewards of its type: it holds each of
   * them as often as the input does and nothing else.
   */
  lemma SectionIsPermutation(rewards: seq<Reward>, t: string, le: (Reward, Reward) -> bool, x: Reward)
    ensures multiset(Section(rewards, t, le)) == multiset(Filter(rewards, OfType(t)))
    ensures x in Section(rewards, t, le) <==> x in rewards && x.rewardType == t
  {
    FilterMembers(rewards, OfType(t), x);
    assert x in Section(rewards, t, le) <==> x in multiset(Filter(rewards, OfType(t)));
  }

  /** Each section is in ascending order of its key. */
  lemma SectionsSorted(rewards: seq<Reward>)
    requires rewards != []
    ensures var c := Trophies(Some(rewards));
      (forall i, j :: 0 <= i < j < |c.milestones| ==> c.milestones[i].criteria_value <= c.milestones[j].criteria_value)
      && (forall i, j :: 0 <= i < j < |c.streaks| ==> c.streaks[i].criteria_value <= c.streaks[j].criteria_value)
      && (forall i, j :: 0 <= i < j < |c.pillars| ==> PillarKey(c.pillars[i]) <= PillarKey(c.pillars[j]))
  {
    ComparatorsArePreorders();
    SortBySorted(Filter(rewards, OfType("milestone")), ByCriteria());
    SortBySorted(Filter(rewards, OfType("streak")), ByCriteria());
    SortBySorted(Filter(rewards, OfType("pillar")), ByPillar());
    var c := Trophies(Some(rewards));
    assert forall i, j :: 0 <= i < j < |c.milestones| ==> ByCriteria()(c.milestones[i], c.milestones[j]);
    assert forall i, j :: 0 <= i < j < |c.streaks| ==> ByCriteria()(c.streaks[i], c.streaks[j]);
    assert forall i, j :: 0 <= i < j < |c.pillars| ==> ByPillar()(c.pillars[i], c.pillars[j]);
  }

  /**
   * Every reward of type milestone, streak or pillar is in its own section and
   * in no other; a reward of any other type is in none.
   */
  lemma SectionsPartition(rewards: seq<Reward>, x: Reward)
    requires rewards != []
    ensures var c := Trophies(Some(rewards));
      (x in c.milestones <==> x in rewards && x.rewardType == "milestone")
      && (x in c.streaks <==> x in rewards && x.rewardType == "streak")
      && (x in c.pillars <==> x in rewards && x.rewardType == "pillar")
  {
    SectionIsPermutation(rewards, "milestone", ByCriteria(), x);
    SectionIsPermutation(rewards, "streak", ByCriteria(), x);
    SectionIsPermutation(rewards, "pillar", ByPillar(), x);
  }

  /** No reward is in two sections. */
  lemma SectionsDisjoint(rewards: seq<Reward>, x: Reward)
    requires rewards != []
    ensures var c := Trophies(Some(rewards));
      !(x in c.milestones && x in c.streaks) && !(x in c.milestones && x in c.pillars) && !(x in c.streaks && x in c.pillars)
  {
    SectionsPartition(rewards, x);
  }
}
