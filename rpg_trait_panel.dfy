/**
 * The level and XP figures of the trait panel
 * (`src/frontend/src/components/dashboard/RPGTraitPanel.tsx`). Scores are
 * JavaScript numbers, here exact reals.
 */
module RpgTraitPanel {

  datatype Trait = Trait(trait_id: int, trait_name: string, pillar_id: int, score: real)

  const LevelNames: seq<string> := ["\U{1F3D5} Explorer", "\U{1F527} Builder", "\U{1F3C6} Champion", "\U{1F31F} Master"]
  const NextLevelTable: seq<real> := [25.0, 50.0, 100.0, 1000.0]

  /** `getLevel`: the thresholds 25, 50 and 100 give levels 1, 2 and 3. */
  function GetLevel(score: real): (level: nat)
    ensures level <= 3
  {
    if score >= 100.0 then 3 else if score >= 50.0 then 2 else if score >= 25.0 then 1 else 0
  }

  /** The XP a level starts at: 0 for the first. */
  function LevelFloor(level: nat): real
    requires level <= 3
  {
    [0.0, 25.0, 50.0, 100.0][level]
  }

  /**
   * A level's range of scores: a score at level l has reached l's threshold,
   * and below level 3 has not reached the next one, which the table gives.
   */
  lemma LevelRange(score: real)
    ensures GetLevel(score) > 0 ==> score >= LevelFloor(GetLevel(score))
    ensures GetLevel(score) < 3 ==> score < NextLevelTable[GetLevel(score)]
    ensures GetLevel(score) == 0 <==> score < 25.0
  {
  }

  /** A higher score never gives a lower level. */
  lemma LevelMonotone(a: real, b: real)
    requires a <= b
    ensures GetLevel(a) <= GetLevel(b)
  {
  }

  /** `traits.reduce((sum, trait) => sum + trait.score, 0)`. */
  function TotalXP(traits: seq<Trait>): real
  {
    if traits == [] then 0.0 else TotalXP(traits[..|traits| - 1]) + traits[|traits| - 1].score
  }

  /** Adding a trait adds its score; so with no negative score the total bounds every score. */
  lemma {:induction false} TotalXPBoundsScores(traits: seq<Trait>)
    requires forall i :: 0 <= i < |traits| ==> traits[i].score >= 0.0
    ensures TotalXP(traits) >= 0.0
    ensures forall i :: 0 <= i < |traits| ==> traits[i].score <= TotalXP(traits)
    decreases |traits|
  {
    if traits != [] {
      var front := traits[..|traits| - 1];
      TotalXPBoundsScores(front);
      forall i | 0 <= i < |traits| ensures traits[i].score <= TotalXP(traits) {
        if i < |front| {
          assert traits[i] == front[i];
        }
      }
    }
  }

  /** `Math.min(a, b)`. */
  function Min(a: real, b: real): (m: real)
    ensures m <= a && m <= b && (m == a || m == b)
  {
    if a <= b then a else b
  }

  /** What the profile header shows. */
  datatype Header = Header(totalXP: real, shownLevel: nat, levelName: string, nextLevelXP: real, xpPercent: real)

  function ProfileHeader(traits: seq<Trait>): (h: Header)
    ensures 1 <= h.shownLevel <= 4
    ensures h.levelName == LevelNames[h.shownLevel - 1]
    ensures h.nextLevelXP > 0.0
    ensures h.xpPercent <= 100.0
  {
    var total := TotalXP(traits);
    var level := GetLevel(total);
    var next := NextLevelTable[level];
    Header(total, level + 1, LevelNames[level], next, Min(total / next * 100.0, 100.0))
  }

  /**
   * Below the top level the total has not reached the next threshold, so the
   * bar is below full; it is full exactly when the total reaches the next
   * threshold, which only the top level can.
   */
  lemma HeaderBar(traits: seq<Trait>)
    ensures var h := ProfileHeader(traits);
      h.totalXP == TotalXP(traits)
      && (h.shownLevel < 4 ==> h.totalXP < h.nextLevelXP && h.xpPercent < 100.0)
      && (h.xpPercent == 100.0 <==> h.totalXP >= h.nextLevelXP)
  {
    var total := TotalXP(traits);
    LevelRange(total);
    var next := NextLevelTable[GetLevel(total)];
    assert total / next * 100.0 < 100.0 <==> total < next;
  }

  /** One trait's bar and level label. */
  datatype TraitBar = TraitBar(percent: real, levelName: string)

  function Bar(t: Trait): (b: TraitBar)
    ensures b.percent <= 100.0 && (t.score <= 100.0 ==> b.percent == t.score)
    ensures b.levelName in LevelNames
  {
    TraitBar(Min(t.score, 100.0), LevelNames[GetLevel(t.score)])
  }
}
