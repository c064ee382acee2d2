/**
 * The canonical week and the server's "allowed weekday indices" rule:
 * `array_keys(array_intersect($week, $days))`, written once in
 * DepartmentController::getDepartment and once in VisitController::create.
 */
module Weekdays {
  import opened Common

  /** The week as the server and the client both spell it, Sunday first. */
  function Week(): seq<string> {
    ["Sun", "Mon", "Tue", "Wed", "Thu", "Fri", "Sat"]
  }

  /**
   * The weekday of a calendar day, 0 for Sunday, as JavaScript's `getDay`.
   * Days are numbered from 1970-01-01, which was a Thursday.
   */
  function Weekday(day: int): (w: int)
    ensures 0 <= w < 7
  {
    (day + 4) % 7
  }

  ghost predicate StrictlyIncreasing(xs: seq<int>) {
    forall i, j :: 0 <= i < j < |xs| ==> xs[i] < xs[j]
  }

  /**
   * `array_intersect($week, $days)` keeps the week's own keys 0..6 for the
   * entries whose label occurs (compared as strings, exactly) among `days`;
   * `array_keys` then lists those keys in order.
   */
  function AllowedIndices(days: seq<string>): (r: seq<int>)
    ensures StrictlyIncreasing(r)
    ensures forall k :: k in r ==> 0 <= k < 7
    ensures forall i :: 0 <= i < 7 ==> (i in r <==> Week()[i] in days)
  {
    IndicesFrom(days, 0)
  }

  /** The indices from `k` on whose label occurs in `days`. */
  function IndicesFrom(days: seq<string>, k: nat): (r: seq<int>)
    requires k <= 7
    ensures StrictlyIncreasing(r)
    ensures forall x :: x in r ==> k <= x < 7
    ensures forall i :: k <= i < 7 ==> (i in r <==> Week()[i] in days)
    decreases 7 - k
  {
    if k == 7 then []
    else
      var rest := IndicesFrom(days, k + 1);
      assert forall j :: 0 <= j < |rest| ==> rest[j] in rest;
      if Week()[k] in days then [k] + rest else rest
  }

  /**
   * Only which labels occur matters: order, duplicates and unknown labels do
   * not change the result, so grouping the labels first (as
   * VisitController::create does) gives the same indices.
   */
  lemma {:induction false} AllowedIndicesOfSameLabels(a: seq<string>, b: seq<string>)
    requires forall l :: l in a <==> l in b
    ensures AllowedIndices(a) == AllowedIndices(b)
  {
    IndicesFromOfSameLabels(a, b, 0);
  }

  lemma {:induction false} IndicesFromOfSameLabels(a: seq<string>, b: seq<string>, k: nat)
    requires k <= 7
    requires forall l :: l in a <==> l in b
    ensures IndicesFrom(a, k) == IndicesFrom(b, k)
    decreases 7 - k
  {
    if k < 7 {
      IndicesFromOfSameLabels(a, b, k + 1);
    }
  }
}
