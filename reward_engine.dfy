/**
 * The reward engine (`src/backend/lib/rewardEngine.ts`). The query results
 * (challenge total, current streak, per-pillar counts) are parameters, the
 * `rewards` catalogue is a lookup function from criteria to a reward id,
 * and the `child_rewards` table is a field holding its (child_id,
 * reward_id) rows in insertion order; the random row id is left out.
 */
module RewardEngine {
  import opened Wrappers

  datatype RewardType = Milestone | Streak | Pillar

  /** The criteria a reward row is looked up by: type, criteria_value and pillar_id (null for none). */
  datatype Criteria = Criteria(kind: RewardType, value: int, pillarId: Option<int>)

  datatype PillarCount = PillarCount(pillar_id: int, count: int)

  /** What a D1 `.all()` call resolves to: an object whose `results` field holds the rows. */
  datatype D1Result<T> = D1Result(results: seq<T>)

  const Milestones: seq<int> := [5, 10, 20]
  const Streaks: seq<int> := [3, 5, 10]
  const PillarCriteria := 3

  // ---------------------------------------------------------------- what is requested

  /** The loop `for (const value of values) if (x >= value) grant(kind, value)`: the requests it makes, in order. */
  function ThresholdRequests(kind: RewardType, values: seq<int>, x: int): seq<Criteria>
  {
    if values == [] then []
    else
      var last := values[|values| - 1];
      ThresholdRequests(kind, values[..|values| - 1], x)
      + (if x >= last then [Criteria(kind, last, None)] else [])
  }

  /** A threshold reward is requested exactly when the value reaches its threshold. */
  lemma {:induction false} ThresholdRequestsIff(kind: RewardType, values: seq<int>, x: int, c: Criteria)
    ensures c in ThresholdRequests(kind, values, x) <==> c.kind == kind && c.pillarId.None? && c.value in values && x >= c.value
    decreases |values|
  {
    if values != [] {
      var front := values[..|values| - 1];
      ThresholdRequestsIff(kind, front, x, c);
      assert values == front + [values[|values| - 1]];
    }
  }

  /** Below every threshold nothing is requested. */
  lemma BelowEveryThreshold(kind: RewardType, values: seq<int>, x: int)
    requires forall v :: v in values ==> x < v
    ensures ThresholdRequests(kind, values, x) == []
  {
    var r := ThresholdRequests(kind, values, x);
    if r != [] {
      ThresholdRequestsIff(kind, values, x, r[0]);
      assert false;
    }
  }

  /** The pillar loop: criteria 3 for the pillar of every count of at least 3, in order. */
  function PillarRequests(counts: seq<PillarCount>): seq<Criteria>
  {
    if counts == [] then []
    else
      var last := counts[|counts| - 1];
      PillarRequests(counts[..|counts| - 1])
      + (if last.count >= PillarCriteria then [Criteria(Pillar, PillarCriteria, Some(last.pillar_id))] else [])
  }

  /** A pillar reward is requested exactly for the pillars with a count of at least 3. */
  lemma {:induction false} PillarRequestsIff(counts: seq<PillarCount>, c: Criteria)
    ensures c in PillarRequests(counts) <==>
      c.kind == Pillar && c.value == 3 && c.pillarId.Some?
      && exists i :: 0 <= i < |counts| && counts[i].pillar_id == c.pillarId.value && counts[i].count >= 3
    decreases |counts|
  {
    if counts != [] {
      var front := counts[..|counts| - 1];
      PillarRequestsIff(front, c);
      assert forall i :: 0 <= i < |front| ==> front[i] == counts[i];
    }
  }

  /** Everything one evaluation requests: milestones, then streaks, then pillars. */
  function Requests(total: int, streak: int, counts: seq<PillarCount>): seq<Criteria>
  {
    ThresholdRequests(Milestone, Milestones, total) + ThresholdRequests(Streak, Streaks, streak) + PillarRequests(counts)
  }

  // ---------------------------------------------------------------- granting

  /** `grantRewardIfNew` on the rows: nothing without a matching reward, nothing when already granted. */
  function GrantStep(rows: seq<(string, string)>, child: string, c: Criteria, lookup: Criteria -> Option<string>): (r: seq<(string, string)>)
    ensures |rows| <= |r| <= |rows| + 1 && r[..|rows|] == rows
    ensures |r| == |rows| + 1 <==> lookup(c).Some? && (child, lookup(c).value) !in rows
    ensures |r| == |rows| + 1 ==> r[|rows|] == (child, lookup(c).value)
  {
    match lookup(c)
    case None => rows
    case Some(id) => if (child, id) in rows then rows else rows + [(child, id)]
  }

  /** The requests granted one after the other. */
  function GrantAll(rows: seq<(string, string)>, child: string, reqs: seq<Criteria>, lookup: Criteria -> Option<string>): seq<(string, string)>
  {
    if reqs == [] then rows
    else GrantStep(GrantAll(rows, child, reqs[..|reqs| - 1], lookup), child, reqs[|reqs| - 1], lookup)
  }

  lemma {:induction false} GrantAllAppend(rows: seq<(string, string)>, child: string, a: seq<Criteria>, b: seq<Criteria>, lookup: Criteria -> Option<string>)
    ensures GrantAll(rows, child, a + b, lookup) == GrantAll(GrantAll(rows, child, a, lookup), child, b, lookup)
    decreases |b|
  {
    if b == [] {
      assert a + b == a;
    } else {
      assert (a + b)[..|a + b| - 1] == a + b[..|b| - 1];
      GrantAllAppend(rows, child, a, b[..|b| - 1], lookup);
    }
  }

  lemma GrantAllSnoc(rows: seq<(string, string)>, child: string, a: seq<Criteria>, c: Criteria, lookup: Criteria -> Option<string>)
    ensures GrantAll(rows, child, a + [c], lookup) == GrantStep(GrantAll(rows, child, a, lookup), child, c, lookup)
  {
    assert (a + [c])[..|a|] == a;
  }

  /** Granting never removes or reorders a row: the old rows are a prefix of the new. */
  lemma {:induction false} GrantAllGrows(rows: seq<(string, string)>, child: string, reqs: seq<Criteria>, lookup: Criteria -> Option<string>)
    ensures rows <= GrantAll(rows, child, reqs, lookup)
    decreases |reqs|
  {
    if reqs != [] {
      GrantAllGrows(rows, child, reqs[..|reqs| - 1], lookup);
    }
  }

  /** The rows afterwards: the old ones, and one for every request that has a matching reward. */
  lemma {:induction false} GrantAllContents(rows: seq<(string, string)>, child: string, reqs: seq<Criteria>, lookup: Criteria -> Option<string>, p: (string, string))
    ensures p in GrantAll(rows, child, reqs, lookup) <==>
      p in rows || (p.0 == child && exists c :: c in reqs && lookup(c) == Some(p.1))
    decreases |reqs|
  {
    if reqs != [] {
      var front := reqs[..|reqs| - 1];
      var last := reqs[|reqs| - 1];
      GrantAllContents(rows, child, front, lookup, p);
      assert reqs == front + [last];
      if p.0 == child && lookup(last) == Some(p.1) {
        assert last in reqs;
      }
    }
  }

  predicate NoDuplicates<T(==)>(s: seq<T>)
  {
    forall i, j :: 0 <= i < j < |s| ==> s[i] != s[j]
  }

  /** The absence check keeps `child_rewards` free of duplicate (child, reward) rows. */
  lemma {:induction false} GrantAllNoDuplicates(rows: seq<(string, string)>, child: string, reqs: seq<Criteria>, lookup: Criteria -> Option<string>)
    requires NoDuplicates(rows)
    ensures NoDuplicates(GrantAll(rows, child, reqs, lookup))
    decreases |reqs|
  {
    if reqs != [] {
      GrantAllNoDuplicates(rows, child, reqs[..|reqs| - 1], lookup);
    }
  }

  /** Requests whose rewards are all granted already change nothing. */
  lemma {:induction false} GrantAllAlreadyGranted(rows: seq<(string, string)>, child: string, reqs: seq<Criteria>, lookup: Criteria -> Option<string>)
    requires forall c :: c in reqs && lookup(c).Some? ==> (child, lookup(c).value) in rows
    ensures GrantAll(rows, child, reqs, lookup) == rows
    decreases |reqs|
  {
    if reqs != [] {
      var front := reqs[..|reqs| - 1];
      assert forall c :: c in front ==> c in reqs;
      GrantAllAlreadyGranted(rows, child, front, lookup);
      assert reqs[|reqs| - 1] in reqs;
    }
  }

  /** Running the same requests a second time leaves the rows as the first run left them. */
  lemma GrantAllIdempotent(rows: seq<(string, string)>, child: string, reqs: seq<Criteria>, lookup: Criteria -> Option<string>)
    ensures var once := GrantAll(rows, child, reqs, lookup);
      GrantAll(once, child, reqs, lookup) == once
  {
    var once := GrantAll(rows, child, reqs, lookup);
    forall c | c in reqs && lookup(c).Some?
      ensures (child, lookup(c).value) in once
    {
      GrantAllContents(rows, child, reqs, lookup, (child, lookup(c).value));
    }
    GrantAllAlreadyGranted(once, child, reqs, lookup);
  }

  /** With no matching reward for any request, nothing is inserted. */
  lemma {:induction false} NoRewardNoRow(rows: seq<(string, string)>, child: string, reqs: seq<Criteria>, lookup: Criteria -> Option<string>)
    requires forall c :: c in reqs ==> lookup(c).None?
    ensures GrantAll(rows, child, reqs, lookup) == rows
    decreases |reqs|
  {
    if reqs != [] {
      var front := reqs[..|reqs| - 1];
      assert forall c :: c in front ==> c in reqs;
      NoRewardNoRow(rows, child, front, lookup);
      assert reqs[|reqs| - 1] in reqs;
    }
  }

  /** The `child_rewards` table. */
  class ChildRewards {
    var rows: seq<(string, string)>

    constructor(initial: seq<(string, string)>)
      ensures rows == initial
    {
      rows := initial;
    }

    /** `grantRewardIfNew`: look the reward up, check for the row, insert it if absent. */
    method GrantRewardIfNew(child: string, c: Criteria, lookup: Criteria -> Option<string>)
      modifies this
      ensures rows == GrantStep(old(rows), child, c, lookup)
    {
      var reward := lookup(c);
      if reward.None? {
        return;
      }
      var alreadyGranted := (child, reward.value) in rows;
      if !alreadyGranted {
        rows := rows + [(child, reward.value)];
      }
    }

    /** One threshold loop of `evaluateAndGrantRewards` (milestones, or streaks). */
    method GrantThresholds(child: string, kind: RewardType, values: seq<int>, x: int, lookup: Criteria -> Option<string>)
      modifies this
      ensures rows == GrantAll(old(rows), child, ThresholdRequests(kind, values, x), lookup)
    {
      ghost var rows0 := rows;
      var i := 0;
      while i < |values|
        invariant 0 <= i <= |values|
        invariant rows == GrantAll(rows0, child, ThresholdRequests(kind, values[..i], x), lookup)
      {
        assert values[..i + 1][..i] == values[..i];
        ghost var before := ThresholdRequests(kind, values[..i], x);
        var value := values[i];
        if x >= value {
          GrantAllSnoc(rows0, child, before, Criteria(kind, value, None), lookup);
          GrantRewardIfNew(child, Criteria(kind, value, None), lookup);
        } else {
          assert before + [] == before;
        }
        i := i + 1;
      }
      assert values[..i] == values;
    }

    /** The pillar loop over the per-pillar counts. */
    method GrantPillars(child: string, counts: seq<PillarCount>, lookup: Criteria -> Option<string>)
      modifies this
      ensures rows == GrantAll(old(rows), child, PillarRequests(counts), lookup)
    {
      ghost var rows0 := rows;
      var i := 0;
      while i < |counts|
        invariant 0 <= i <= |counts|
        invariant rows == GrantAll(rows0, child, PillarRequests(counts[..i]), lookup)
      {
        assert counts[..i + 1][..i] == counts[..i];
        ghost var before := PillarRequests(counts[..i]);
        if counts[i].count < PillarCriteria {
          assert before + [] == before;
        } else {
          GrantAllSnoc(rows0, child, before, Criteria(Pillar, PillarCriteria, Some(counts[i].pillar_id)), lookup);
          GrantRewardIfNew(child, Criteria(Pillar, PillarCriteria, Some(counts[i].pillar_id)), lookup);
        }
        i := i + 1;
      }
      assert counts[..i] == counts;
    }

    /**
     * `evaluateAndGrantRewards` as written: the pillar loop iterates the
     * `.all()` result object itself, which has no iterator, so the call
     * throws a TypeError once the milestone and streak rewards are granted.
     */
    method EvaluateAndGrantRewardsAsWritten(child: string, total: int, streak: int, pillarCounts: D1Result<PillarCount>, lookup: Criteria -> Option<string>)
      returns (thrown: bool)
      modifies this
      ensures thrown
      ensures rows == GrantAll(old(rows), child, ThresholdRequests(Milestone, Milestones, total) + ThresholdRequests(Streak, Streaks, streak), lookup)
    {
      GrantThresholds(child, Milestone, Milestones, total, lookup);
      GrantThresholds(child, Streak, Streaks, streak, lookup);
      GrantAllAppend(old(rows), child, ThresholdRequests(Milestone, Milestones, total), ThresholdRequests(Streak, Streaks, streak), lookup);
      thrown := true;
    }

    /** `evaluateAndGrantRewards` iterating the rows of the pillar query, `pillarCounts.results`. */
    method EvaluateAndGrantRewards(child: string, total: int, streak: int, pillarCounts: D1Result<PillarCount>, lookup: Criteria -> Option<string>)
      modifies this
      ensures rows == GrantAll(old(rows), child, Requests(total, streak, pillarCounts.results), lookup)
    {
      var m := ThresholdRequests(Milestone, Milestones, total);
      var s := ThresholdRequests(Streak, Streaks, streak);
      GrantThresholds(child, Milestone, Milestones, total, lookup);
      GrantThresholds(child, Streak, Streaks, streak, lookup);
      GrantPillars(child, pillarCounts.results, lookup);
      GrantAllAppend(old(rows), child, m, s, lookup);
      GrantAllAppend(old(rows), child, m + s, PillarRequests(pillarCounts.results), lookup);
    }
  }

  /**
   * With three logged challenges in pillar 1 and a pillar reward in the
   * catalogue, the evaluation as written grants nothing, while iterating the
   * rows grants the pillar reward.
   */
  lemma PillarRewardNeverGranted()
    ensures var lookup := (c: Criteria) => if c.kind == Pillar then Some("pillar-1") else None;
      GrantAll([], "kid", ThresholdRequests(Milestone, Milestones, 3) + ThresholdRequests(Streak, Streaks, 0), lookup) == []
      && GrantAll([], "kid", Requests(3, 0, [PillarCount(1, 3)]), lookup) == [("kid", "pillar-1")]
  {
    var lookup := (c: Criteria) => if c.kind == Pillar then Some("pillar-1") else None;
    var t := ThresholdRequests(Milestone, Milestones, 3) + ThresholdRequests(Streak, Streaks, 0);
    BelowEveryThreshold(Milestone, Milestones, 3);
    BelowEveryThreshold(Streak, Streaks, 0);
    assert t == [];
    var p := PillarRequests([PillarCount(1, 3)]);
    assert p == [Criteria(Pillar, 3, Some(1))];
    assert Requests(3, 0, [PillarCount(1, 3)]) == p;
    assert GrantAll([], "kid", p, lookup) == GrantStep([], "kid", p[0], lookup);
  }

  // ---------------------------------------------------------------- progress

  /** `values.find(v => v > total)`: the first value above the total. */
  function Find(values: seq<int>, total: int): (r: Option<int>)
    ensures r.Some? ==> r.value in values && r.value > total
    ensures r.None? ==> forall v :: v in values ==> v <= total
  {
    if values == [] then None
    else if values[0] > total then Some(values[0])
    else
      var r := Find(values[1..], total);
      assert forall v :: v in values ==> v == values[0] || v in values[1..];
      r
  }

  /** Find returns the value at the first index above the total. */
  lemma {:induction false} FindFirst(values: seq<int>, total: int, i: nat)
    requires i < |values| && values[i] > total
    requires forall j :: 0 <= j < i ==> values[j] <= total
    ensures Find(values, total) == Some(values[i])
  {
    if i > 0 {
      FindFirst(values[1..], total, i - 1);
    }
  }

  /** `nextMilestone`: the find, or 20 when it finds nothing (no milestone is 0, so `||` only replaces undefined). */
  function NextMilestone(total: int): (r: int)
    ensures r in Milestones
    ensures r > total || r == Milestones[|Milestones| - 1]
  {
    Find(Milestones, total).GetOr(Milestones[|Milestones| - 1])
  }

  /** The next milestone is the smallest of 5, 10 and 20 above the total, and 20 once the total reaches 20. */
  lemma NextMilestoneIsSmallestAbove(total: int)
    ensures NextMilestone(total) in Milestones
    ensures total < 20 ==> NextMilestone(total) > total && forall v :: v in Milestones && v > total ==> NextMilestone(total) <= v
    ensures total >= 20 ==> NextMilestone(total) == 20
  {
    if total < 5 {
      FindFirst(Milestones, total, 0);
    } else if total < 10 {
      FindFirst(Milestones, total, 1);
    } else if total < 20 {
      FindFirst(Milestones, total, 2);
    }
  }

  /** What `getChildProgress` returns. */
  datatype Progress = Progress(totalChallenges: int, currentStreak: int, longestStreak: int, nextMilestone: int)

  datatype ProgressError =
    | NoChildRow      // `.first()` gave null and the destructuring threw
    | ChildNotFound   // the row's age_range is empty or null

  /** `x || 0` for a query value that may be null. */
  function OrZero(x: Option<int>): (r: int)
    ensures x.None? ==> r == 0
    ensures x.Some? ==> r == x.value
  {
    if x.None? then 0 else x.value
  }

  /** `getChildProgress` after its queries: the child row, the total and the two streaks. */
  function ChildProgress(child: Option<Option<string>>, total: int, current: Option<int>, longest: Option<int>): (r: Result<Progress, ProgressError>)
    ensures child.None? <==> r == Err(NoChildRow)
    ensures r.Ok? <==> child.Some? && child.value.Some? && child.value.value != []
    ensures r.Ok? ==> r.value.totalChallenges == total && r.value.nextMilestone == NextMilestone(total)
    ensures r.Ok? ==> r.value.currentStreak == OrZero(current) && r.value.longestStreak == OrZero(longest)
  {
    if child.None? then Err(NoChildRow)
    else if child.value.None? || child.value.value == [] then Err(ChildNotFound)
    else Ok(Progress(total, OrZero(current), OrZero(longest), NextMilestone(total)))
  }
}
