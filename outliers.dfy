/**
 * Per-variable configuration and the outlier limits (LI, LS) of a numeric column:
 * `RFMProcessing.calculate_outliers_limits`.
 */
module OutlierLimits {
  import opened Common
  import opened Stats

  /**
   * One variable's entry in the `variables` section. A `None` field is a key the entry lacks;
   * the optional factors fall back to the defaults of the code.
   */
  datatype VarConfig = VarConfig(
    outlierMethod: Option<string>,
    iqrFactor: Option<real>,
    stdDevFactor: Option<real>,
    percentileLower: Option<real>,
    percentileUpper: Option<real>,
    breaksMethod: Option<string>)

  /** The `variables` mapping, in declaration order (a Python dict keeps insertion order). */
  datatype VarEntry = VarEntry(name: string, config: VarConfig)

  const DefaultIqrFactor: real := 1.5
  const DefaultStdDevFactor: real := 2.0
  const DefaultPercentileLower: real := 5.0
  const DefaultPercentileUpper: real := 95.0

  /** `variables_config.get(name)`: the configuration of the entry with that name, if any. */
  function Lookup(vars: seq<VarEntry>, name: string): (r: Option<VarConfig>)
    ensures r.None? <==> forall i :: 0 <= i < |vars| ==> vars[i].name != name
    ensures r.Some? ==> exists i :: 0 <= i < |vars| && vars[i].name == name && vars[i].config == r.value
  {
    if vars == [] then None
    else if vars[0].name == name then Some(vars[0].config)
    else
      var r := Lookup(vars[1..], name);
      assert forall i :: 1 <= i < |vars| ==> vars[i] == vars[1..][i - 1];
      r
  }

  /** LI and LS, the method's spread (IQR or standard deviation; none for percentiles), min and max. */
  datatype Limits = Limits(lower: real, upper: real, spread: Option<real>, min: real, max: real)

  predicate IsPercent(p: real) {
    0.0 <= p <= 100.0
  }

  /**
   * The limits for one column under one configuration. `std` stands for pandas' sample standard
   * deviation of the column, which needs a square root and is supplied by the caller.
   */
  function LimitsFor(col: seq<real>, cfg: VarConfig, std: seq<real> -> real): (r: Result<Limits>)
    ensures cfg.outlierMethod.None? ==> r == Err(KeyError("outlier_method"))
    ensures cfg.outlierMethod.Some? && cfg.outlierMethod.value !in {"IQR", "std_dev", "percentiles"}
      ==> r == Err(ValueError(cfg.outlierMethod.value))
    ensures r.Ok? ==> |col| > 0 && r.value.min == Min(col) && r.value.max == Max(col)
    // IQR: LI <= Q1 <= Q3 <= LS for a non-negative factor, and the spread is Q3 - Q1 >= 0
    ensures r.Ok? && cfg.outlierMethod == Some("IQR") && cfg.iqrFactor.GetOr(DefaultIqrFactor) >= 0.0 ==>
      var q1, q3 := Percentile(col, 25.0), Percentile(col, 75.0);
      r.value.lower <= q1 <= q3 <= r.value.upper && r.value.spread == Some(q3 - q1)
    // std_dev: LI <= mean <= LS for a non-negative factor and deviation
    ensures r.Ok? && cfg.outlierMethod == Some("std_dev") && cfg.stdDevFactor.GetOr(DefaultStdDevFactor) >= 0.0
      && std(col) >= 0.0
      ==> r.value.lower <= Mean(col) <= r.value.upper && r.value.spread == Some(std(col))
    // percentiles: both limits are observed in [min, max], ordered when the configured percentiles are
    ensures r.Ok? && cfg.outlierMethod == Some("percentiles") ==>
      var pl, pu := cfg.percentileLower.GetOr(DefaultPercentileLower), cfg.percentileUpper.GetOr(DefaultPercentileUpper);
      IsPercent(pl) && IsPercent(pu) && r.value.spread.None?
      && Min(col) <= r.value.lower <= Max(col) && Min(col) <= r.value.upper <= Max(col)
      && (pl <= pu ==> r.value.lower <= r.value.upper)
    ensures cfg.outlierMethod == Some("percentiles") && |col| > 0 ==>
      (r.Ok? <==> IsPercent(cfg.percentileLower.GetOr(DefaultPercentileLower))
                  && IsPercent(cfg.percentileUpper.GetOr(DefaultPercentileUpper)))
    ensures cfg.outlierMethod.Some? && cfg.outlierMethod.value in {"IQR", "std_dev"} ==> (r.Ok? <==> |col| > 0)
  {
    match cfg.outlierMethod
    case None => Err(KeyError("outlier_method"))
    case Some(kind) =>
      if kind == "IQR" then
        if |col| == 0 then Err(EmptyData("outlier limits"))
        else
          var q1, q3 := Percentile(col, 25.0), Percentile(col, 75.0);
          PercentileMonotone(col, 25.0, 75.0);
          var iqr := q3 - q1;
          var f := cfg.iqrFactor.GetOr(DefaultIqrFactor);
          assert f >= 0.0 ==> f * iqr >= 0.0 by {
            if f >= 0.0 { MulNonNeg(f, iqr); }
          }
          Ok(Limits(q1 - f * iqr, q3 + f * iqr, Some(iqr), Min(col), Max(col)))
      else if kind == "std_dev" then
        if |col| == 0 then Err(EmptyData("outlier limits"))
        else
          var mean, sd := Mean(col), std(col);
          var k := cfg.stdDevFactor.GetOr(DefaultStdDevFactor);
          assert k >= 0.0 && sd >= 0.0 ==> k * sd >= 0.0 by {
            if k >= 0.0 && sd >= 0.0 { MulNonNeg(k, sd); }
          }
          Ok(Limits(mean - k * sd, mean + k * sd, Some(sd), Min(col), Max(col)))
      else if kind == "percentiles" then
        if |col| == 0 then Err(EmptyData("outlier limits"))
        else
          var pl := cfg.percentileLower.GetOr(DefaultPercentileLower);
          var pu := cfg.percentileUpper.GetOr(DefaultPercentileUpper);
          if !IsPercent(pl) || !IsPercent(pu) then Err(ValueError("percentile"))
          else
            PercentileBounds(col, pl);
            PercentileBounds(col, pu);
            assert pl <= pu ==> Percentile(col, pl) <= Percentile(col, pu) by {
              if pl <= pu { PercentileMonotone(col, pl, pu); }
            }
            Ok(Limits(Percentile(col, pl), Percentile(col, pu), None, Min(col), Max(col)))
      else
        Err(ValueError(kind))
  }

  /** `calculate_outliers_limits(df, column)`: an unconfigured variable raises KeyError. */
  function CalculateOutliersLimits(col: seq<real>, name: string, vars: seq<VarEntry>, std: seq<real> -> real)
    : (r: Result<Limits>)
    ensures Lookup(vars, name).None? ==> r == Err(KeyError(name))
    ensures Lookup(vars, name).Some? ==> r == LimitsFor(col, Lookup(vars, name).value, std)
  {
    match Lookup(vars, name)
    case None => Err(KeyError(name))
    case Some(cfg) => LimitsFor(col, cfg, std)
  }
}
