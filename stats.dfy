/**
 * The column statistics the scoring engine asks pandas/numpy for: minimum, maximum, mean,
 * and the percentile with numpy's default 'linear' interpolation (the same rule pandas'
 * `quantile` uses). Everything is exact real arithmetic.
 */
module Stats {

  predicate Sorted(s: seq<real>) {
    forall i, j :: 0 <= i <= j < |s| ==> s[i] <= s[j]
  }

  function Min(s: seq<real>): (m: real)
    requires |s| > 0
    ensures m in s && forall x :: x in s ==> m <= x
  {
    if |s| == 1 then s[0]
    else
      var rest := Min(s[1..]);
      assert forall x :: x in s ==> x == s[0] || x in s[1..];
      if s[0] <= rest then s[0] else rest
  }

  function Max(s: seq<real>): (m: real)
    requires |s| > 0
    ensures m in s && forall x :: x in s ==> x <= m
  {
    if |s| == 1 then s[0]
    else
      var rest := Max(s[1..]);
      assert forall x :: x in s ==> x == s[0] || x in s[1..];
      if s[0] >= rest then s[0] else rest
  }

  function Sum(s: seq<real>): real {
    if s == [] then 0.0 else Sum(s[..|s| - 1]) + s[|s| - 1]
  }

  function Mean(s: seq<real>): real
    requires |s| > 0
  {
    Sum(s) / (|s| as real)
  }

  function Insert(x: real, s: seq<real>): (r: seq<real>)
    requires Sorted(s)
    ensures Sorted(r) && multiset(r) == multiset(s) + multiset{x} && |r| == |s| + 1
  {
    if s == [] then [x]
    else if x <= s[0] then [x] + s
    else
      var tail := Insert(x, s[1..]);
      assert s == [s[0]] + s[1..];
      InsertAbove(x, s, tail);
      [s[0]] + tail
  }

  lemma InsertAbove(x: real, s: seq<real>, tail: seq<real>)
    requires Sorted(s) && |s| > 0 && s[0] < x && Sorted(tail)
    requires multiset(tail) == multiset(s[1..]) + multiset{x}
    ensures Sorted([s[0]] + tail)
  {
    forall k | 0 <= k < |tail| ensures s[0] <= tail[k] {
      assert tail[k] in multiset(tail);
      if tail[k] != x {
        assert tail[k] in multiset(s[1..]);
        var j :| 0 <= j < |s[1..]| && s[1..][j] == tail[k];
        assert s[j + 1] == tail[k];
      }
    }
  }

  /** The values in ascending order (insertion sort: a permutation that is sorted). */
  function Sort(s: seq<real>): (r: seq<real>)
    ensures Sorted(r) && multiset(r) == multiset(s) && |r| == |s|
  {
    if s == [] then []
    else
      assert s == s[..|s| - 1] + [s[|s| - 1]];
      Insert(s[|s| - 1], Sort(s[..|s| - 1]))
  }

  lemma SortEnds(s: seq<real>)
    requires |s| > 0
    ensures Sort(s)[0] == Min(s) && Sort(s)[|s| - 1] == Max(s)
  {
    var a := Sort(s);
    assert forall x :: x in a <==> x in s by {
      forall x ensures x in a <==> x in s {
        assert x in a <==> x in multiset(a);
      }
    }
    assert a[0] in a && a[|a| - 1] in a;
  }

  /** Position `h` on the sorted values, interpolated linearly between neighbours. */
  function Interpolate(a: seq<real>, h: real): real
    requires |a| > 0 && 0.0 <= h <= (|a| - 1) as real
  {
    var lo := h.Floor;
    if lo >= |a| - 1 then a[|a| - 1]
    else a[lo] + (h - lo as real) * (a[lo + 1] - a[lo])
  }

  /** `numpy.percentile(s, p)` with the default linear method, for `p` in [0, 100]. */
  function Percentile(s: seq<real>, p: real): real
    requires |s| > 0 && 0.0 <= p <= 100.0
  {
    Interpolate(Sort(s), VirtualIndex(|s|, p))
  }

  function VirtualIndex(n: nat, p: real): (h: real)
    requires n > 0 && 0.0 <= p <= 100.0
    ensures 0.0 <= h <= (n - 1) as real
  {
    var k := (n - 1) as real;
    MulNonNeg(k, p);
    MulNonNeg(k, 100.0 - p);
    assert k * 100.0 - k * p == k * (100.0 - p);
    k * p / 100.0
  }

  lemma VirtualIndexMonotone(n: nat, p: real, q: real)
    requires n > 0 && 0.0 <= p <= q <= 100.0
    ensures VirtualIndex(n, p) <= VirtualIndex(n, q)
  {
    var k := (n - 1) as real;
    MulNonNeg(k, q - p);
    assert k * q - k * p == k * (q - p);
  }

  lemma MulNonNeg(a: real, b: real)
    requires 0.0 <= a && 0.0 <= b
    ensures 0.0 <= a * b
  {
  }

  lemma LerpBetween(x: real, y: real, t: real)
    requires x <= y && 0.0 <= t <= 1.0
    ensures x <= x + t * (y - x) <= y
  {
    var d := y - x;
    MulNonNeg(t, d);
    MulNonNeg(1.0 - t, d);
    assert (1.0 - t) * d == d - t * d;
  }

  lemma LerpMonotone(x: real, y: real, t: real, u: real)
    requires x <= y && 0.0 <= t <= u
    ensures x + t * (y - x) <= x + u * (y - x)
  {
    var d := y - x;
    MulNonNeg(u - t, d);
    assert (u - t) * d == u * d - t * d;
  }

  lemma InterpolateBetween(a: seq<real>, h: real)
    requires |a| > 0 && 0.0 <= h <= (|a| - 1) as real && Sorted(a)
    ensures 0 <= h.Floor < |a|
    ensures a[h.Floor] <= Interpolate(a, h)
    ensures Interpolate(a, h) <= (if h.Floor + 1 < |a| then a[h.Floor + 1] else a[h.Floor])
  {
    var lo := h.Floor;
    if lo < |a| - 1 {
      LerpBetween(a[lo], a[lo + 1], h - lo as real);
    }
  }

  lemma InterpolateMonotone(a: seq<real>, h: real, k: real)
    requires |a| > 0 && 0.0 <= h <= k <= (|a| - 1) as real && Sorted(a)
    ensures Interpolate(a, h) <= Interpolate(a, k)
  {
    var lo, hi := h.Floor, k.Floor;
    InterpolateBetween(a, h);
    InterpolateBetween(a, k);
    if lo == hi {
      if lo < |a| - 1 {
        LerpMonotone(a[lo], a[lo + 1], h - lo as real, k - lo as real);
      }
    } else {
      assert lo < hi;
    }
  }

  /** A percentile of a non-empty column lies between the column's minimum and maximum. */
  lemma PercentileBounds(s: seq<real>, p: real)
    requires |s| > 0 && 0.0 <= p <= 100.0
    ensures Min(s) <= Percentile(s, p) <= Max(s)
  {
    var a := Sort(s);
    SortEnds(s);
    var h := VirtualIndex(|s|, p);
    InterpolateBetween(a, h);
  }

  /** A higher percentile is never smaller. */
  lemma PercentileMonotone(s: seq<real>, p: real, q: real)
    requires |s| > 0 && 0.0 <= p <= q <= 100.0
    ensures Percentile(s, p) <= Percentile(s, q)
  {
    VirtualIndexMonotone(|s|, p, q);
    InterpolateMonotone(Sort(s), VirtualIndex(|s|, p), VirtualIndex(|s|, q));
  }
}
