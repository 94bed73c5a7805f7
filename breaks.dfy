/**
 * Classification cut-points and the ranges they induce: `RFMProcessing.calculate_breaks`.
 * The cut-points are the column minimum minus 0.001, the interior breaks (percentiles of the
 * in-bounds values, or the interior of a Jenks classification), and the column maximum plus 0.001.
 */
module Breaks {
  import opened Common
  import opened Stats
  import opened OutlierLimits

  /** A `(lower, upper)` tuple of `break_ranges`. */
  datatype Range = Range(lower: real, upper: real)

  datatype BreakSet = BreakSet(breaks: seq<real>, ranges: seq<Range>)

  /** The values of `global_settings` the engine reads. */
  datatype GlobalSettings = GlobalSettings(numCategories: nat, scoreMin: int, scoreMax: int, scoreStep: int)

  /**
   * The Jenks classifier (`jenkspy.jenks_breaks(values, n_classes)`): all its breaks, global
   * minimum and maximum included, or `None` when the library raises.
   */
  type JenksOracle = (seq<real>, nat) -> Option<seq<real>>

  /** `df[(col >= LI) & (col <= LS) & col.notnull()]`: the in-bounds values, in order. */
  function InBounds(col: seq<real>, lo: real, hi: real): (r: seq<real>)
    ensures |r| <= |col|
    ensures forall x :: x in r <==> x in col && lo <= x <= hi
  {
    if col == [] then []
    else
      var rest := InBounds(col[1..], lo, hi);
      assert forall x :: x in col <==> x == col[0] || x in col[1..];
      if lo <= col[0] <= hi then [col[0]] + rest else rest
  }

  /** Every in-bounds value is kept as many times as the column holds it; no other value is kept. */
  lemma {:induction false} InBoundsMultiplicity(col: seq<real>, lo: real, hi: real)
    ensures forall x :: multiset(InBounds(col, lo, hi))[x] == if lo <= x <= hi then multiset(col)[x] else 0
  {
    if col != [] {
      InBoundsMultiplicity(col[1..], lo, hi);
      assert col == [col[0]] + col[1..];
    }
  }

  /** `np.linspace(0, 100, n + 1)[i]`: the i-th of n + 1 evenly spaced percentages. */
  function Rank(i: nat, n: nat): (p: real)
    requires 0 < n && i <= n
    ensures 0.0 <= p <= 100.0
  {
    assert (i as real) * 100.0 <= (n as real) * 100.0;
    (i as real) * 100.0 / (n as real)
  }

  lemma RankMonotone(i: nat, j: nat, n: nat)
    requires 0 < n && i <= j <= n
    ensures Rank(i, n) <= Rank(j, n)
  {
    var x, y, d := (i as real) * 100.0, (j as real) * 100.0, n as real;
    assert x <= y;
    DivMonotone(x, y, d);
  }

  lemma DivMonotone(x: real, y: real, d: real)
    requires x <= y && d > 0.0
    ensures x / d <= y / d
  {
    var u, v := x / d, y / d;
    assert u * d == x && v * d == y;
    if u > v {
      MulNonNeg(u - v, d);
    }
  }

  /** The `num_categories - 1` interior percentiles `np.percentile(filtered, linspace(0, 100, n + 1)[1:-1])`. */
  function InteriorPercentiles(f: seq<real>, n: nat): (r: seq<real>)
    requires |f| > 0
    ensures |r| == if n <= 1 then 0 else n - 1
  {
    if n <= 1 then [] else seq(n - 1, k requires 0 <= k < n - 1 => Percentile(f, Rank(k + 1, n)))
  }

  /** Python's `xs[1:-1]`. */
  function Inner(xs: seq<real>): (r: seq<real>)
    ensures |xs| >= 2 ==> r == xs[1..|xs| - 1]
    ensures |xs| < 2 ==> r == []
  {
    if |xs| < 2 then [] else xs[1..|xs| - 1]
  }

  /** `np.concatenate(([min - 0.001], interior, [max + 0.001]))`. */
  function Cutpoints(minValue: real, maxValue: real, interior: seq<real>): (b: seq<real>)
    ensures |b| == |interior| + 2
    ensures b[0] == minValue - Eps && b[|b| - 1] == maxValue + Eps
    ensures forall k :: 0 <= k < |interior| ==> b[k + 1] == interior[k]
  {
    [minValue - Eps] + interior + [maxValue + Eps]
  }

  /** `[(breaks[i], breaks[i+1]) for i in range(len(breaks)-1)]`. */
  function RangesOf(b: seq<real>): (rs: seq<Range>)
    ensures |rs| == if |b| == 0 then 0 else |b| - 1
    ensures forall i :: 0 <= i < |rs| ==> rs[i] == Range(b[i], b[i + 1])
  {
    if |b| == 0 then [] else seq(|b| - 1, i requires 0 <= i < |b| - 1 => Range(b[i], b[i + 1]))
  }

  /** The i-th range after the shrink pass: its upper bound moves down by 0.001 when it reaches the next lower bound. */
  function ShrunkAt(rs: seq<Range>, i: nat): Range
    requires i < |rs|
  {
    if i + 1 < |rs| && rs[i].upper >= rs[i + 1].lower then Range(rs[i].lower, rs[i].upper - Eps) else rs[i]
  }

  /** The whole list after the shrink pass (each test reads the next range, which the pass never edits). */
  function Shrunk(rs: seq<Range>): (r: seq<Range>)
    ensures |r| == |rs|
  {
    seq(|rs|, i requires 0 <= i < |rs| => ShrunkAt(rs, i))
  }

  /** The shrink pass of lines 150-152 and 164-166, editing the list in place. */
  method ShrinkOverlaps(a: array<Range>)
    modifies a
    ensures a[..] == Shrunk(old(a[..]))
  {
    ghost var rs := a[..];
    var i := 0;
    while i + 1 < a.Length
      invariant 0 <= i <= a.Length
      invariant forall k :: 0 <= k < i ==> a[k] == ShrunkAt(rs, k)
      invariant forall k :: i <= k < a.Length ==> a[k] == rs[k]
    {
      if a[i].upper >= a[i + 1].lower {
        a[i] := Range(a[i].lower, a[i].upper - Eps);
      }
      i := i + 1;
    }
    assert forall k :: i <= k < a.Length ==> ShrunkAt(rs, k) == rs[k];
  }

  /** The ranges `calculate_breaks` returns for a cut-point vector. */
  function BreakRanges(b: seq<real>): seq<Range> {
    Shrunk(RangesOf(b))
  }

  /** The interior breaks of the configured method, computed over the in-bounds values. */
  function InteriorBreaks(kind: string, f: seq<real>, n: nat, jenks: JenksOracle): (r: Result<seq<real>>)
    ensures kind !in {"percentiles", "jenks"} ==> r == Err(ValueError(kind))
    ensures kind == "percentiles" ==> (r.Ok? <==> |f| > 0)
    ensures kind == "percentiles" && |f| > 0 ==> r == Ok(InteriorPercentiles(f, n))
  {
    if kind == "percentiles" then
      if |f| == 0 then Err(EmptyData("percentile of no values")) else Ok(InteriorPercentiles(f, n))
    else if kind == "jenks" then
      match jenks(f, n)
      case None => Err(ValueError("jenks"))
      case Some(all) => Ok(Inner(all))
    else
      Err(ValueError(kind))
  }

  /** What `calculate_breaks(df, column)` returns or raises. */
  function BreaksSpec(col: seq<real>, name: string, vars: seq<VarEntry>, g: GlobalSettings,
                      std: seq<real> -> real, jenks: JenksOracle): (r: Result<BreakSet>)
    ensures Lookup(vars, name).None? ==> r == Err(KeyError(name))
    ensures r.Ok? ==> |r.value.breaks| >= 2 && r.value.ranges == BreakRanges(r.value.breaks)
  {
    match Lookup(vars, name)
    case None => Err(KeyError(name))
    case Some(cfg) =>
      match CalculateOutliersLimits(col, name, vars, std)
      case Err(e) => Err(e)
      case Ok(lim) =>
        var f := InBounds(col, lim.lower, lim.upper);
        match cfg.breaksMethod
        case None => Err(KeyError("breaks_method"))
        case Some(kind) =>
          match InteriorBreaks(kind, f, g.numCategories, jenks)
          case Err(e) => Err(e)
          case Ok(interior) =>
            var b := Cutpoints(lim.min, lim.max, interior);
            Ok(BreakSet(b, BreakRanges(b)))
  }

  /** `calculate_breaks`: the cut-points, then the ranges, then the in-place shrink pass. */
  method CalculateBreaks(col: seq<real>, name: string, vars: seq<VarEntry>, g: GlobalSettings,
                         std: seq<real> -> real, jenks: JenksOracle) returns (r: Result<BreakSet>)
    ensures r == BreaksSpec(col, name, vars, g, std, jenks)
  {
    var cfg := Lookup(vars, name);
    if cfg.None? {
      return Err(KeyError(name));
    }
    var limits := CalculateOutliersLimits(col, name, vars, std);
    if limits.Err? {
      return Err(limits.error);
    }
    var lim := limits.value;
    var f := InBounds(col, lim.lower, lim.upper);
    if cfg.value.breaksMethod.None? {
      return Err(KeyError("breaks_method"));
    }
    var interior := InteriorBreaks(cfg.value.breaksMethod.value, f, g.numCategories, jenks);
    if interior.Err? {
      return Err(interior.error);
    }
    var b := Cutpoints(lim.min, lim.max, interior.value);
    var pairs := RangesOf(b);
    var a := new Range[|pairs|](i requires 0 <= i < |pairs| => pairs[i]);
    assert a[..] == pairs;
    ShrinkOverlaps(a);
    r := Ok(BreakSet(b, a[..]));
  }

  /** Before the shrink pass each range ends where the next begins, so the shrink test always fires. */
  lemma AdjacentRangesTouch(b: seq<real>, i: nat)
    requires i + 2 < |b|
    ensures RangesOf(b)[i].upper == RangesOf(b)[i + 1].lower
  {
  }

  /**
   * After the shrink pass: every range but the last ends 0.001 below the next cut-point, the last
   * range and every lower bound are the cut-points' own, and consecutive ranges are strictly apart.
   */
  lemma BreakRangesShape(b: seq<real>)
    requires |b| >= 2
    ensures |BreakRanges(b)| == |b| - 1
    ensures forall i :: 0 <= i < |b| - 1 ==> BreakRanges(b)[i].lower == b[i]
    ensures forall i :: 0 <= i < |b| - 2 ==> BreakRanges(b)[i].upper == b[i + 1] - Eps
    ensures BreakRanges(b)[|b| - 2] == Range(b[|b| - 2], b[|b| - 1])
    ensures forall i :: 0 <= i < |b| - 2 ==> BreakRanges(b)[i].upper < BreakRanges(b)[i + 1].lower
  {
    var rs := RangesOf(b);
    forall i | 0 <= i < |b| - 2 ensures BreakRanges(b)[i] == Range(b[i], b[i + 1] - Eps) {
      AdjacentRangesTouch(b, i);
    }
  }

  lemma InteriorAt(f: seq<real>, n: nat, k: nat)
    requires |f| > 0 && n > 1 && k < n - 1
    ensures InteriorPercentiles(f, n)[k] == Percentile(f, Rank(k + 1, n))
  {
    var p := Rank(k + 1, n);
    assert InteriorPercentiles(f, n) == seq(n - 1, j requires 0 <= j < n - 1 => Percentile(f, Rank(j + 1, n)));
  }

  /** The interior percentiles lie between the filtered minimum and maximum. */
  lemma InteriorPercentilesBounded(f: seq<real>, n: nat)
    requires |f| > 0
    ensures forall x :: x in InteriorPercentiles(f, n) ==> Min(f) <= x <= Max(f)
  {
    var interior := InteriorPercentiles(f, n);
    forall k | 0 <= k < |interior| ensures Min(f) <= interior[k] <= Max(f) {
      InteriorAt(f, n, k);
      PercentileBounds(f, Rank(k + 1, n));
    }
  }

  /** The interior percentiles are non-decreasing. */
  lemma InteriorPercentilesSorted(f: seq<real>, n: nat)
    requires |f| > 0
    ensures Sorted(InteriorPercentiles(f, n))
  {
    var interior := InteriorPercentiles(f, n);
    forall i, j | 0 <= i <= j < |interior| ensures interior[i] <= interior[j] {
      InteriorAt(f, n, i);
      InteriorAt(f, n, j);
      RankMonotone(i + 1, j + 1, n);
      PercentileMonotone(f, Rank(i + 1, n), Rank(j + 1, n));
    }
  }

  /** Sorted values within [lo, hi], framed by lo - 0.001 and hi + 0.001, stay sorted. */
  lemma CutpointsSorted(lo: real, hi: real, xs: seq<real>)
    requires lo <= hi && Sorted(xs) && forall x :: x in xs ==> lo <= x <= hi
    ensures Sorted(Cutpoints(lo, hi, xs))
  {
    var b := Cutpoints(lo, hi, xs);
    forall i, j | 0 <= i <= j < |b| ensures b[i] <= b[j] {
      if i == 0 {
        if 0 < j <= |xs| { assert b[j] == xs[j - 1] && xs[j - 1] in xs; }
      } else if i <= |xs| {
        assert b[i] == xs[i - 1] && xs[i - 1] in xs;
        if j <= |xs| { assert b[j] == xs[j - 1]; }
      }
    }
  }

  /**
   * On the percentiles path, the cut-points number `num_categories + 1`, are non-decreasing,
   * start below the column minimum and end above the column maximum.
   */
  lemma PercentileBreaksSorted(col: seq<real>, name: string, vars: seq<VarEntry>, g: GlobalSettings,
                               std: seq<real> -> real, jenks: JenksOracle)
    requires Lookup(vars, name).Some? && Lookup(vars, name).value.breaksMethod == Some("percentiles")
    requires g.numCategories >= 1
    ensures BreaksSpec(col, name, vars, g, std, jenks).Ok? ==>
      var b := BreaksSpec(col, name, vars, g, std, jenks).value.breaks;
      |col| > 0 && |b| == g.numCategories + 1 && Sorted(b) && b[0] < Min(col) && Max(col) < b[|b| - 1]
  {
    if BreaksSpec(col, name, vars, g, std, jenks).Err? {
      return;
    }
    var lim := CalculateOutliersLimits(col, name, vars, std).value;
    var f := InBounds(col, lim.lower, lim.upper);
    assert |f| > 0;
    assert lim.min == Min(col) && lim.max == Max(col);
    assert Min(col) <= Max(col) by { assert Max(col) in col; }
    assert Min(col) <= Min(f) && Max(f) <= Max(col) by {
      assert Min(f) in col && Max(f) in col;
    }
    InteriorPercentilesSorted(f, g.numCategories);
    InteriorPercentilesBounded(f, g.numCategories);
    CutpointsSorted(lim.min, lim.max, InteriorPercentiles(f, g.numCategories));
  }
}
