/**
 * The per-variable driver `RFMProcessing.process_rfm_data`: for every configured variable, in
 * declaration order, compute the breaks and the scores and add `<var>_score` and `<var>_range`;
 * a variable whose processing raises is skipped and the others are still scored.
 */
module VariablePipeline {
  import opened Common
  import opened Text
  import opened Tables
  import opened OutlierLimits
  import opened Breaks
  import opened Scoring
  import opened RfmCalculator

  /** `df[column]` on the per-customer table, as numbers. */
  function ColumnValues(rows: seq<RfmRow>, name: string, customerColumn: string): (r: Result<seq<real>>)
    ensures r.Ok? ==> |r.value| == |rows|
    ensures name !in {customerColumn, "Recency", "Frequency", "Monetary", "LastPurchaseDate", "MonthsWithPurchases"}
      ==> r == Err(KeyError(name))
  {
    if name == customerColumn || name == "LastPurchaseDate" then Err(TypeError(name))
    else if name == "Recency" then
      if forall i :: 0 <= i < |rows| ==> rows[i].recency.Some? then
        Ok(seq(|rows|, i requires 0 <= i < |rows| => rows[i].recency.value as real))
      else Err(TypeError(name))
    else if name == "Frequency" then Ok(seq(|rows|, i requires 0 <= i < |rows| => rows[i].frequency as real))
    else if name == "Monetary" then Ok(seq(|rows|, i requires 0 <= i < |rows| => rows[i].monetary))
    else if name == "MonthsWithPurchases" then Ok(seq(|rows|, i requires 0 <= i < |rows| => rows[i].months as real))
    else Err(KeyError(name))
  }

  /** Recency is scored in inverse order; the test is on the lower-cased variable name. */
  predicate IsInverse(name: string) {
    ToLower(name) == "recency"
  }

  /**
   * The inverse test ignores case: a name is inverse exactly when it has seven characters, each
   * the letter of "recency" at that place or its upper-case form.
   */
  lemma RecencyIgnoresCase(name: string)
    ensures IsInverse(name) <==>
      (|name| == 7 && forall i :: 0 <= i < 7 ==> name[i] == "recency"[i] || name[i] as int + 32 == "recency"[i] as int)
  {
    if |name| == 7 && forall i :: 0 <= i < 7 ==> name[i] == "recency"[i] || name[i] as int + 32 == "recency"[i] as int {
      forall i | 0 <= i < 7 ensures ToLower(name)[i] == "recency"[i] {
        if name[i] != "recency"[i] {
          assert 'A' <= name[i] <= 'Z';
        }
      }
    }
  }

  /** Instances of the test: the column names the configuration uses. */
  lemma RecencyNames()
    ensures IsInverse("Recency") && IsInverse("recency") && IsInverse("RECENCY")
    ensures !IsInverse("Frequency") && !IsInverse("Monetary") && !IsInverse("Recency ")
  {
    RecencyIgnoresCase("Recency");
    RecencyIgnoresCase("RECENCY");
    assert ToLower("Frequency")[0] == 'f';
  }

  /** What the body of the `try` computes for one variable, or the exception it raises. */
  function ScoreVariable(rows: seq<RfmRow>, name: string, vars: seq<VarEntry>, g: GlobalSettings,
                         customerColumn: string, std: seq<real> -> real, jenks: JenksOracle)
    : (r: Result<VariableResult>)
    ensures r.Ok? ==> |r.value.scores| == |rows| && |r.value.ranges| == |rows|
    ensures r.Ok? ==> exists col, bs ::
      (ColumnValues(rows, name, customerColumn) == Ok(col)
       && BreaksSpec(col, name, vars, g, std, jenks) == Ok(bs)
       && r.value == CalculateScore(col, bs, g, ToLower(name) == "recency"))
  {
    match ColumnValues(rows, name, customerColumn)
    case Err(e) => Err(e)
    case Ok(col) =>
      match BreaksSpec(col, name, vars, g, std, jenks)
      case Err(e) => Err(e)
      case Ok(bs) =>
        BreakRangesShape(bs.breaks);
        Ok(CalculateScore(col, bs, g, IsInverse(name)))
  }

  /**
   * `scores_dict` after the first k variables of the loop, given what processing each variable
   * yields (a later entry for the same name overwrites an earlier one).
   */
  function Scored(vars: seq<VarEntry>, k: nat, outcome: string -> Result<VariableResult>)
    : map<string, VariableResult>
    requires k <= |vars|
  {
    if k == 0 then map[]
    else
      var before := Scored(vars, k - 1, outcome);
      match outcome(vars[k - 1].name)
      case Ok(v) => before[vars[k - 1].name := v]
      case Err(_) => before
  }

  /** The outcome of each variable's `try` block over a fixed per-customer table and configuration. */
  function Outcome(rows: seq<RfmRow>, vars: seq<VarEntry>, g: GlobalSettings, customerColumn: string,
                   std: seq<real> -> real, jenks: JenksOracle): string -> Result<VariableResult>
  {
    name => ScoreVariable(rows, name, vars, g, customerColumn, std, jenks)
  }

  /** The per-customer table with the score and range columns of each variable that succeeded. */
  datatype ScoredTable = ScoredTable(rows: seq<RfmRow>, variables: map<string, VariableResult>)

  /** Every score and range column has one entry per customer row, as columns of one DataFrame do. */
  predicate Aligned(rows: seq<RfmRow>, variables: map<string, VariableResult>) {
    forall name :: name in variables ==>
      |variables[name].scores| == |rows| && |variables[name].ranges| == |rows|
  }

  method ScoreOneVariable(rows: seq<RfmRow>, name: string, vars: seq<VarEntry>, g: GlobalSettings,
                          customerColumn: string, std: seq<real> -> real, jenks: JenksOracle)
    returns (r: Result<VariableResult>)
    ensures r == ScoreVariable(rows, name, vars, g, customerColumn, std, jenks)
  {
    var col := ColumnValues(rows, name, customerColumn);
    if col.Err? {
      return Err(col.error);
    }
    var bs := CalculateBreaks(col.value, name, vars, g, std, jenks);
    if bs.Err? {
      return Err(bs.error);
    }
    BreakRangesShape(bs.value.breaks);
    r := Ok(CalculateScore(col.value, bs.value, g, IsInverse(name)));
  }

  /** `process_rfm_data`: the loop with its per-variable `try`/`except`, then the column-wise concatenation. */
  method ProcessRfmData(rows: seq<RfmRow>, vars: seq<VarEntry>, g: GlobalSettings,
                        customerColumn: string, std: seq<real> -> real, jenks: JenksOracle)
    returns (t: ScoredTable)
    ensures t.rows == rows
    ensures t.variables == Scored(vars, |vars|, Outcome(rows, vars, g, customerColumn, std, jenks))
    ensures Aligned(t.rows, t.variables)
  {
    var scores: map<string, VariableResult> := map[];
    for i := 0 to |vars|
      invariant scores == Scored(vars, i, Outcome(rows, vars, g, customerColumn, std, jenks))
    {
      var r := ScoreOneVariable(rows, vars[i].name, vars, g, customerColumn, std, jenks);
      if r.Ok? {
        scores := scores[vars[i].name := r.value];
      }
    }
    ScoredValues(vars, |vars|, Outcome(rows, vars, g, customerColumn, std, jenks));
    t := ScoredTable(rows, scores);
  }

  /**
   * A variable has score and range columns exactly when one of its entries among the first k
   * was processed without raising; a failing variable adds nothing and does not stop the others.
   */
  lemma {:induction false} ScoredKeys(vars: seq<VarEntry>, k: nat, outcome: string -> Result<VariableResult>)
    requires k <= |vars|
    ensures forall name :: name in Scored(vars, k, outcome) <==>
      exists i :: 0 <= i < k && vars[i].name == name && outcome(name).Ok?
  {
    if k > 0 {
      ScoredKeys(vars, k - 1, outcome);
      forall name
        ensures name in Scored(vars, k, outcome) <==>
          exists i :: 0 <= i < k && vars[i].name == name && outcome(name).Ok?
      {
        if name == vars[k - 1].name && outcome(name).Ok? {
          assert vars[k - 1].name == name;
        }
      }
    }
  }

  /**
   * The score and range columns stored under a name are that variable's own result; this holds even
   * when a name is configured twice, since both entries yield the same outcome.
   */
  lemma {:induction false} ScoredValues(vars: seq<VarEntry>, k: nat, outcome: string -> Result<VariableResult>)
    requires k <= |vars|
    ensures forall name :: name in Scored(vars, k, outcome) ==>
      outcome(name).Ok? && Scored(vars, k, outcome)[name] == outcome(name).value
  {
    if k > 0 {
      ScoredValues(vars, k - 1, outcome);
    }
  }
}
