/**
 * The numbers behind the confidence star
 * (`src/frontend/src/components/rewards/ConfidenceStar.tsx`): the fill of
 * each of the five pillar points, the XP fallback, which points are drawn,
 * and the completed-star label. The star geometry is not modelled.
 * `star_fill_progress` and `pillar_progress` are objects read by key
 * `1`..`5`; a missing entry or field is absent from the map or `None`.
 */
module ConfidenceStar {
  import opened Wrappers
  import opened Text

  /** XP per complete star point. */
  const MaxXP := 150

  datatype Progress = Progress(
    star_fill_progress: Option<map<int, real>>,
    pillar_progress: Option<map<int, Option<int>>>,
    completed_stars_count: Option<int>)

  /** `!starFill[pid] || starFill[pid] === 0`: missing or zero. */
  predicate ZeroOrMissing(fill: map<int, real>, pid: int)
  {
    pid !in fill || fill[pid] == 0.0
  }

  predicate AllZeroOrMissing(fill: map<int, real>)
  {
    forall pid :: 1 <= pid <= 5 ==> ZeroOrMissing(fill, pid)
  }

  /** JavaScript's `%`: the remainder takes the sign of the dividend. */
  function JsRem(a: int, b: int): (r: int)
    requires b > 0
    ensures a >= 0 ==> 0 <= r < b && r == a % b
    ensures a < 0 ==> -b < r <= 0
  {
    if a >= 0 then a % b else -((-a) % b)
  }

  /** `pillar_progress[pid]?.xp || 0`. */
  function XpOf(pillarProgress: map<int, Option<int>>, pid: int): int
  {
    if pid in pillarProgress && pillarProgress[pid].Some? then pillarProgress[pid].value else 0
  }

  /** `(xp % 150) / 150`. */
  function XpFill(xp: int): (f: real)
    ensures xp >= 0 ==> 0.0 <= f < 1.0
    ensures xp >= 0 ==> (f == 0.0 <==> xp % MaxXP == 0)
  {
    JsRem(xp, MaxXP) as real / MaxXP as real
  }

  /**
   * The fills used for drawing: the given ones, unless pillars 1 to 5 are
   * all missing or zero and XP figures exist, in which case each pillar's
   * fill is its XP past the last full star.
   */
  function StarFill(p: Progress): (fill: map<int, real>)
    ensures (AllZeroOrMissing(p.star_fill_progress.GetOr(map[])) && p.pillar_progress.Some?) ==>
      forall pid :: 1 <= pid <= 5 ==> pid in fill && fill[pid] == XpFill(XpOf(p.pillar_progress.value, pid))
    ensures !(AllZeroOrMissing(p.star_fill_progress.GetOr(map[])) && p.pillar_progress.Some?) ==>
      fill == p.star_fill_progress.GetOr(map[])
  {
    var given := p.star_fill_progress.GetOr(map[]);
    if AllZeroOrMissing(given) && p.pillar_progress.Some? then
      map pid | 1 <= pid <= 5 :: XpFill(XpOf(p.pillar_progress.value, pid))
    else given
  }

  /** The fallback loop: reset to `{}`, then fill pillars 1 to 5. */
  method ComputeStarFill(p: Progress) returns (starFill: map<int, real>)
    ensures starFill == StarFill(p)
  {
    starFill := p.star_fill_progress.GetOr(map[]);
    var allZeroOrMissing := forall pid :: 1 <= pid <= 5 ==> ZeroOrMissing(starFill, pid);
    if allZeroOrMissing && p.pillar_progress.Some? {
      starFill := map[];
      var pid := 1;
      while pid <= 5
        invariant 1 <= pid <= 6
        invariant starFill == map q | 1 <= q < pid :: XpFill(XpOf(p.pillar_progress.value, q))
      {
        var xp := XpOf(p.pillar_progress.value, pid);
        starFill := starFill[pid := JsRem(xp, MaxXP) as real / MaxXP as real];
        pid := pid + 1;
      }
    }
  }

  /** With non-negative XP every fallback fill is in [0, 1). */
  lemma FallbackFillRange(p: Progress)
    requires AllZeroOrMissing(p.star_fill_progress.GetOr(map[])) && p.pillar_progress.Some?
    requires forall pid :: 1 <= pid <= 5 ==> XpOf(p.pillar_progress.value, pid) >= 0
    ensures forall pid :: 1 <= pid <= 5 ==> pid in StarFill(p) && 0.0 <= StarFill(p)[pid] < 1.0
  {
  }

  /** `starFill[pillarId] ?? 0`. */
  function FillOf(fill: map<int, real>, pid: int): real
  {
    if pid in fill then fill[pid] else 0.0
  }

  /** The pillars from `pid` to 5 whose point is drawn, in order, with their fill. */
  function PointsFrom(fill: map<int, real>, pid: int): (points: seq<(int, real)>)
    requires 1 <= pid <= 6
    ensures forall i :: 0 <= i < |points| ==> pid <= points[i].0 <= 5 && points[i].1 == FillOf(fill, points[i].0) && points[i].1 != 0.0
    ensures forall q :: pid <= q <= 5 && FillOf(fill, q) != 0.0 ==> (q, FillOf(fill, q)) in points
    ensures forall i, j :: 0 <= i < j < |points| ==> points[i].0 < points[j].0
    decreases 6 - pid
  {
    if pid == 6 then []
    else
      var rest := PointsFrom(fill, pid + 1);
      if FillOf(fill, pid) != 0.0 then [(pid, FillOf(fill, pid))] + rest else rest
  }

  /**
   * `[1, 2, 3, 4, 5].map(...)` returning `null` for a zero fill: exactly the
   * pillars with a non-zero fill draw a point, in pillar order.
   */
  function DrawnPoints(fill: map<int, real>): (points: seq<(int, real)>)
    ensures forall i :: 0 <= i < |points| ==> 1 <= points[i].0 <= 5 && points[i].1 == FillOf(fill, points[i].0) && points[i].1 != 0.0
    ensures forall q :: 1 <= q <= 5 && FillOf(fill, q) != 0.0 ==> (q, FillOf(fill, q)) in points
    ensures forall i, j :: 0 <= i < j < |points| ==> points[i].0 < points[j].0
  {
    PointsFrom(fill, 1)
  }

  /** `progress.completed_stars_count || 0`. */
  function CompletedStars(p: Progress): int
  {
    if p.completed_stars_count.Some? then p.completed_stars_count.value else 0
  }

  /** `{completedStars} Completed Star{completedStars === 1 ? '' : 's'}`: plural unless exactly one. */
  function StarsLabel(n: int): (text: string)
    ensures |text| > |IntToString(n)| && text[..|IntToString(n)|] == IntToString(n)
    ensures text[|text| - 1] == 's' <==> n != 1
  {
    var count := IntToString(n);
    var noun := if n == 1 then " Completed Star" else " Completed Stars";
    assert noun[|noun| - 1] == (if n == 1 then 'r' else 's');
    var text := count + noun;
    assert text[..|count|] == count;
    text
  }

  datatype StarView = StarView(points: seq<(int, real)>, completedLabel: string)

  /** Nothing is drawn without a progress summary. */
  function Render(progress: Option<Progress>): (v: Option<StarView>)
    ensures progress.None? <==> v.None?
    ensures v.Some? ==>
      v.value.points == DrawnPoints(StarFill(progress.value)) && v.value.completedLabel == StarsLabel(CompletedStars(progress.value))
  {
    if progress.None? then None
    else Some(StarView(DrawnPoints(StarFill(progress.value)), StarsLabel(CompletedStars(progress.value))))
  }
}
