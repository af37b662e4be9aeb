/**
 * The confidence summary (`src/frontend/src/utils/confidenceTrend.ts`): the
 * feelings are read newest-last from a reversed copy, the step-to-step
 * changes are collected and averaged, and the average picks one of three
 * messages. Feelings are integers, so the comparison of the average with
 * 0.2 is written exactly: `sum / count > 0.2` iff `5 * sum > count`.
 */
module ConfidenceTrend {

  datatype ConfidenceData = ConfidenceData(date: string, feeling: int)

  const KeepTracking := "Let's keep tracking your confidence!"
  const Upward := "You're trending upward \U{2014} keep it up!"
  const Dipped := "Confidence has dipped a bit \U{2014} let's keep practicing!"
  const Steady := "You're staying steady \U{2014} nice work!"

  /** The feelings of `[...data].reverse()`, in that order. */
  function ReversedFeelings(data: seq<ConfidenceData>): (r: seq<int>)
    ensures |r| == |data|
    ensures forall i :: 0 <= i < |data| ==> r[i] == data[|data| - 1 - i].feeling
  {
    if data == [] then [] else [data[|data| - 1].feeling] + ReversedFeelings(data[..|data| - 1])
  }

  /** `recent[i] - recent[i - 1]` for i from 1. */
  function Deltas(recent: seq<int>): (r: seq<int>)
    requires |recent| >= 1
    ensures |r| == |recent| - 1
    ensures forall i :: 0 <= i < |r| ==> r[i] == recent[i + 1] - recent[i]
  {
    seq(|recent| - 1, i requires 0 <= i < |recent| - 1 => recent[i + 1] - recent[i])
  }

  function Sum(xs: seq<int>): int
  {
    if xs == [] then 0 else Sum(xs[..|xs| - 1]) + xs[|xs| - 1]
  }

  /** The message for a total change `sum` over `count` steps, with `count` positive. */
  function Classify(sum: int, count: int): (r: string)
    requires count > 0
    ensures r == Upward <==> 5 * sum > count
    ensures r == Dipped <==> 5 * sum < -count
    ensures r == Steady <==> -count <= 5 * sum <= count
  {
    if 5 * sum > count then Upward
    else if 5 * sum < -count then Dipped
    else Steady
  }

  /** The summary as the code computes it: the changes along the reversed feelings, summed and averaged. */
  function Summary(data: seq<ConfidenceData>): string
  {
    if |data| < 2 then KeepTracking
    else Classify(Sum(Deltas(ReversedFeelings(data))), |data| - 1)
  }

  /** The changes along a sequence add up to its last value minus its first. */
  lemma {:induction false} Telescopes(recent: seq<int>)
    requires |recent| >= 1
    ensures Sum(Deltas(recent)) == recent[|recent| - 1] - recent[0]
    decreases |recent|
  {
    if |recent| > 1 {
      var front := recent[..|recent| - 1];
      Telescopes(front);
      var d := Deltas(recent);
      assert d[..|d| - 1] == Deltas(front);
    }
  }

  /**
   * The average change is the newest entry's feeling (data[0], as the rows
   * arrive newest first) minus the oldest's (data[n - 1]), over n - 1: the
   * entries in between play no part, and a positive value means improving.
   */
  lemma SummaryOfEnds(data: seq<ConfidenceData>)
    requires |data| >= 2
    ensures Summary(data) == Classify(data[0].feeling - data[|data| - 1].feeling, |data| - 1)
  {
    Telescopes(ReversedFeelings(data));
  }

  /** Two histories of the same length with the same first and last feelings get the same message. */
  lemma OnlyEndsMatter(a: seq<ConfidenceData>, b: seq<ConfidenceData>)
    requires |a| == |b| >= 2
    requires a[0].feeling == b[0].feeling && a[|a| - 1].feeling == b[|b| - 1].feeling
    ensures Summary(a) == Summary(b)
  {
    SummaryOfEnds(a);
    SummaryOfEnds(b);
  }

  /** Fewer than two entries ask to keep tracking; otherwise it is exactly one of the three trend messages. */
  lemma SummaryMessages(data: seq<ConfidenceData>)
    ensures |data| < 2 <==> Summary(data) == KeepTracking
    ensures |data| >= 2 ==> Summary(data) in {Upward, Dipped, Steady}
  {
  }

  /**
   * `getConfidenceSummary`: the reversed copy, the loop pushing the changes,
   * then the reduce. The input array is only read.
   */
  method GetConfidenceSummary(data: array<ConfidenceData>) returns (msg: string)
    ensures msg == Summary(data[..])
  {
    if data.Length < 2 {
      return KeepTracking;
    }
    var recent: seq<int> := [];
    var k := 0;
    while k < data.Length
      invariant 0 <= k <= data.Length
      invariant recent == ReversedFeelings(data[..k])
    {
      assert data[..k + 1][..k] == data[..k];
      recent := [data[k].feeling] + recent;
      k := k + 1;
    }
    assert data[..k] == data[..];
    var deltas: seq<int> := [];
    var i := 1;
    while i < |recent|
      invariant 1 <= i <= |recent|
      invariant deltas == Deltas(recent[..i])
    {
      deltas := deltas + [recent[i] - recent[i - 1]];
      i := i + 1;
    }
    assert recent[..i] == recent;
    var total := 0;
    var j := 0;
    while j < |deltas|
      invariant 0 <= j <= |deltas|
      invariant total == Sum(deltas[..j])
    {
      assert deltas[..j + 1][..j] == deltas[..j];
      total := total + deltas[j];
      j := j + 1;
    }
    assert deltas[..j] == deltas;
    msg := Classify(total, |deltas|);
  }
}
