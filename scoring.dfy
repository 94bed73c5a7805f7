/**
 * Scores and ranges of a column: `RFMProcessing.calculate_score` (np.digitize with right=False,
 * np.clip, then a linear map, inverted for recency) and `RFMProcessing.get_range_for_value`.
 */
module Scoring {
  import opened Common
  import opened Stats
  import opened Breaks

  /** `np.digitize(v, breaks, right=False)` on increasing breaks: how many breaks are <= v. */
  function CountLe(b: seq<real>, v: real): (c: nat)
    ensures c <= |b|
  {
    if b == [] then 0 else CountLe(b[..|b| - 1], v) + (if b[|b| - 1] <= v then 1 else 0)
  }

  /** `np.clip(x, lo, hi)`, that is `minimum(maximum(x, lo), hi)`. */
  function Clip(x: int, lo: int, hi: int): int {
    var y := if x < lo then lo else x;
    if y > hi then hi else y
  }

  /** The clipped bucket of one value. */
  function Bucket(v: real, b: seq<real>, g: GlobalSettings): int {
    Clip(CountLe(b, v), g.scoreMin, g.numCategories)
  }

  /** The score of one value: `score_min + (bucket - score_min) * step`, or `score_max - ...` when inverse. */
  function Score(v: real, b: seq<real>, g: GlobalSettings, inverse: bool): int {
    var k := Bucket(v, b, g) - g.scoreMin;
    if inverse then g.scoreMax - k * g.scoreStep else g.scoreMin + k * g.scoreStep
  }

  /** The half-open test `lower <= v < upper`. */
  predicate Contains(r: Range, v: real) {
    r.lower <= v < r.upper
  }

  /** The index of the first range that contains v, scanning left to right. */
  function FirstContaining(v: real, rs: seq<Range>): (r: Option<nat>)
    ensures r.Some? ==> r.value < |rs| && Contains(rs[r.value], v)
                        && forall j :: 0 <= j < r.value ==> !Contains(rs[j], v)
    ensures r.None? ==> forall j :: 0 <= j < |rs| ==> !Contains(rs[j], v)
  {
    if rs == [] then None
    else if Contains(rs[0], v) then Some(0)
    else
      match FirstContaining(v, rs[1..])
      case None => None
      case Some(k) => Some(k + 1)
  }

  /**
   * `get_range_for_value`: the first range with `lower <= v < upper`; failing that, the last
   * range when v equals its upper bound; otherwise `None`.
   */
  function GetRangeForValue(v: real, rs: seq<Range>): (r: Option<Range>)
    requires |rs| > 0
    ensures r.None? <==> (forall j :: 0 <= j < |rs| ==> !Contains(rs[j], v)) && v != rs[|rs| - 1].upper
    ensures r.Some? ==> exists i :: (0 <= i < |rs| && r.value == rs[i]
      && (forall j :: 0 <= j < i ==> !Contains(rs[j], v))
      && (Contains(rs[i], v) || (i == |rs| - 1 && v == rs[i].upper)))
  {
    match FirstContaining(v, rs)
    case Some(i) => Some(rs[i])
    case None => if v == rs[|rs| - 1].upper then Some(rs[|rs| - 1]) else None
  }

  /** The `<var>_score` and `<var>_range` columns of one variable. */
  datatype VariableResult = VariableResult(scores: seq<int>, ranges: seq<Option<Range>>)

  /** `calculate_score`: a score and a range for every value of the column, in row order. */
  function CalculateScore(col: seq<real>, bs: BreakSet, g: GlobalSettings, inverse: bool): (r: VariableResult)
    requires |bs.ranges| > 0
    ensures |r.scores| == |col| && |r.ranges| == |col|
    ensures g.scoreStep >= 0 && !inverse ==>
      forall i, j :: 0 <= i < |col| && 0 <= j < |col| && col[i] <= col[j] ==> r.scores[i] <= r.scores[j]
    ensures g.scoreStep >= 0 && inverse ==>
      forall i, j :: 0 <= i < |col| && 0 <= j < |col| && col[i] <= col[j] ==> r.scores[i] >= r.scores[j]
    ensures forall i :: 0 <= i < |col| ==> r.ranges[i] == GetRangeForValue(col[i], bs.ranges)
  {
    var scores := seq(|col|, i requires 0 <= i < |col| => Score(col[i], bs.breaks, g, inverse));
    var ranges := seq(|col|, i requires 0 <= i < |col| => GetRangeForValue(col[i], bs.ranges));
    ColumnScoresMonotone(col, scores, bs.breaks, g, inverse);
    VariableResult(scores, ranges)
  }

  lemma ColumnScoresMonotone(col: seq<real>, scores: seq<int>, b: seq<real>, g: GlobalSettings, inverse: bool)
    requires |scores| == |col| && forall i :: 0 <= i < |col| ==> scores[i] == Score(col[i], b, g, inverse)
    ensures g.scoreStep >= 0 && !inverse ==>
      forall i, j :: 0 <= i < |col| && 0 <= j < |col| && col[i] <= col[j] ==> scores[i] <= scores[j]
    ensures g.scoreStep >= 0 && inverse ==>
      forall i, j :: 0 <= i < |col| && 0 <= j < |col| && col[i] <= col[j] ==> scores[i] >= scores[j]
  {
    forall i, j | 0 <= i < |col| && 0 <= j < |col| && col[i] <= col[j] && g.scoreStep >= 0
      ensures !inverse ==> scores[i] <= scores[j]
      ensures inverse ==> scores[i] >= scores[j]
    {
      ScoreMonotone(col[i], col[j], b, g, inverse);
    }
  }

  /** More of the breaks lie at or below a larger value. */
  lemma {:induction false} CountLeMonotone(b: seq<real>, v: real, w: real)
    requires v <= w
    ensures CountLe(b, v) <= CountLe(b, w)
  {
    if b != [] {
      CountLeMonotone(b[..|b| - 1], v, w);
    }
  }

  /**
   * On sorted breaks the count is the digitize bucket: the breaks before it are <= v and the
   * breaks from it on are > v (`bins[i-1] <= v < bins[i]`).
   */
  lemma {:induction false} CountLeSorted(b: seq<real>, v: real)
    requires Sorted(b)
    ensures forall j :: 0 <= j < CountLe(b, v) ==> b[j] <= v
    ensures forall j :: CountLe(b, v) <= j < |b| ==> v < b[j]
  {
    if b != [] {
      var p := b[..|b| - 1];
      assert Sorted(p);
      CountLeSorted(p, v);
      if b[|b| - 1] <= v {
        assert forall j :: 0 <= j < |p| ==> p[j] <= b[|b| - 1];
        assert CountLe(p, v) == |p|;
      }
    }
  }

  lemma MulMonotone(x: int, y: int, s: int)
    requires x <= y && s >= 0
    ensures x * s <= y * s
  {
    assert y * s - x * s == (y - x) * s;
  }

  /**
   * Scores are monotone in the raw value: non-decreasing for the standard order and
   * non-increasing for the inverse order, when the step is non-negative.
   */
  lemma ScoreMonotone(v: real, w: real, b: seq<real>, g: GlobalSettings, inverse: bool)
    requires v <= w && g.scoreStep >= 0
    ensures !inverse ==> Score(v, b, g, inverse) <= Score(w, b, g, inverse)
    ensures inverse ==> Score(v, b, g, inverse) >= Score(w, b, g, inverse)
  {
    CountLeMonotone(b, v, w);
    assert Bucket(v, b, g) <= Bucket(w, b, g);
    MulMonotone(Bucket(v, b, g) - g.scoreMin, Bucket(w, b, g) - g.scoreMin, g.scoreStep);
  }

  /**
   * With `score_min <= num_categories` and a non-negative step, the bucket lies in
   * [score_min, num_categories], a standard score in [score_min, score_min + (n - score_min) * step]
   * and an inverse score in [score_max - (n - score_min) * step, score_max].
   */
  lemma ScoreBounds(v: real, b: seq<real>, g: GlobalSettings)
    requires g.scoreMin <= g.numCategories && g.scoreStep >= 0
    ensures g.scoreMin <= Bucket(v, b, g) <= g.numCategories
    ensures var span := (g.numCategories - g.scoreMin) * g.scoreStep;
      g.scoreMin <= Score(v, b, g, false) <= g.scoreMin + span
      && g.scoreMax - span <= Score(v, b, g, true) <= g.scoreMax
  {
    var k := Bucket(v, b, g) - g.scoreMin;
    MulMonotone(0, k, g.scoreStep);
    MulMonotone(k, g.numCategories - g.scoreMin, g.scoreStep);
  }

  /**
   * A value at or above the last interior break (an upper outlier included) gets the top bucket,
   * `num_categories`, and a value below the first cut-point gets `score_min` when it is in [0, n].
   */
  lemma BucketExtremes(v: real, b: seq<real>, g: GlobalSettings)
    requires Sorted(b) && |b| == g.numCategories + 1 && 0 <= g.scoreMin <= g.numCategories
    ensures g.numCategories >= 1 && b[g.numCategories - 1] <= v ==> Bucket(v, b, g) == g.numCategories
    ensures v < b[0] ==> Bucket(v, b, g) == g.scoreMin
  {
    CountLeSorted(b, v);
  }

  /** Range j of the cut-points after the shrink pass. */
  lemma RangeAt(b: seq<real>, j: nat)
    requires j + 1 < |b|
    ensures |BreakRanges(b)| == |b| - 1
    ensures BreakRanges(b)[j] == if j + 2 < |b| then Range(b[j], b[j + 1] - Eps) else Range(b[j], b[j + 1])
  {
  }

  /**
   * The shrink gaps: on sorted cut-points, a value in `[b[i+1] - 0.001, b[i+1])` below a shrunk
   * upper bound lies in no range, so `get_range_for_value` returns `None` for it.
   */
  lemma GapHasNoRange(b: seq<real>, i: nat, v: real)
    requires Sorted(b) && i + 2 < |b|
    requires b[i + 1] - Eps <= v < b[i + 1]
    ensures GetRangeForValue(v, BreakRanges(b)) == None
  {
    var rs := BreakRanges(b);
    forall j | 0 <= j < |rs| ensures !Contains(rs[j], v) {
      RangeAt(b, j);
      if j <= i {
        assert b[j + 1] <= b[i + 1];
      } else {
        assert b[i + 1] <= b[j];
      }
    }
    RangeAt(b, |b| - 2);
    assert b[i + 1] <= b[|b| - 1];
  }

  /** No range before range i of sorted cut-points holds a value at or above b[i]. */
  lemma NoEarlierRange(b: seq<real>, i: nat, v: real)
    requires Sorted(b) && i + 1 < |b| && b[i] <= v
    ensures forall j :: 0 <= j < i ==> !Contains(BreakRanges(b)[j], v)
  {
    forall j | 0 <= j < i ensures !Contains(BreakRanges(b)[j], v) {
      RangeAt(b, j);
      assert b[j + 1] <= b[i];
    }
  }

  /** On sorted cut-points a value inside range i, below its shrunk upper bound, is given exactly that range. */
  lemma RangeFound(b: seq<real>, i: nat, v: real)
    requires Sorted(b) && i + 2 < |b|
    requires b[i] <= v < b[i + 1] - Eps
    ensures GetRangeForValue(v, BreakRanges(b)) == Some(BreakRanges(b)[i])
  {
    RangeAt(b, i);
    NoEarlierRange(b, i, v);
    var r := FirstContaining(v, BreakRanges(b));
    assert r.Some?;
    assert r.value == i;
  }

  /** On sorted cut-points every value of the closed last range `[b[n-1], b[n]]` is given the last range. */
  lemma LastRangeFound(b: seq<real>, v: real)
    requires Sorted(b) && |b| >= 2
    requires b[|b| - 2] <= v <= b[|b| - 1]
    ensures GetRangeForValue(v, BreakRanges(b)) == Some(BreakRanges(b)[|b| - 2])
  {
    RangeAt(b, |b| - 2);
    NoEarlierRange(b, |b| - 2, v);
    var r := FirstContaining(v, BreakRanges(b));
    if v < b[|b| - 1] {
      assert r.Some?;
      assert r.value == |b| - 2;
    } else {
      assert r.None?;
    }
  }
}
