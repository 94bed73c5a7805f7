/**
 * `RFMProcessor` of segment_assigner.py: the final score of each customer (concatenation, sum or
 * mean of the Recency, Frequency and Monetary scores) and its business category (the "Nuevo"
 * override, then the first configured category listing the score's text, then a fallback label).
 */
module SegmentAssigner {
  import opened Common
  import opened Text
  import opened Calendar
  import opened Scoring
  import opened RfmCalculator
  import opened VariablePipeline

  /** One customer's `Final_Score`; `Mean(total)` stands for the float total / 3. */
  datatype FinalScore = Concat(text: string) | Sum(total: int) | Mean(total: int)

  /** One entry of `business_categories`: a label and the score texts listed under it. */
  datatype Category = Category(name: string, values: seq<string>)

  /** What the processor holds after construction; the end date comes from the data loader. */
  datatype Settings = Settings(scoreMethod: string, categories: seq<Category>, endDate: int)

  const Combination: string := "combinacion"
  const SumMethod: string := "suma"
  const MeanMethod: string := "promedio"
  /** The default of `score_method` as the constructor writes it, with an accent. */
  const AccentedDefault: string := "combinación"
  const NewLabel: string := "Nuevo"
  const Uncategorized: string := "Sin Categoría"
  const FinalScoreColumnName: string := "Final_Score"

  /**
   * `score_method` as the constructor sets it: the configured value, or the accented default when
   * the key is absent or the configuration could not be loaded (cfg == None).
   */
  function ScoreMethodAsWritten(cfg: Option<map<string, string>>): string {
    if cfg.Some? && "score_method" in cfg.value then cfg.value["score_method"] else AccentedDefault
  }

  /** The same choice with the default spelled as the comparison in `calculate_final_score` expects. */
  function ScoreMethod(cfg: Option<map<string, string>>): string {
    if cfg.Some? && "score_method" in cfg.value then cfg.value["score_method"] else Combination
  }

  /** The processor's settings, with `score_method` chosen as `ScoreMethod` does. */
  function SettingsFrom(cfg: Option<map<string, string>>, categories: seq<Category>, endDate: int): Settings {
    Settings(ScoreMethod(cfg), categories, endDate)
  }

  /** `calculate_final_score` for one customer's Recency, Frequency and Monetary scores. */
  function FinalScoreOf(kind: string, r: int, f: int, m: int): (s: Result<FinalScore>)
    ensures s.Err? <==> kind !in {Combination, SumMethod, MeanMethod}
    ensures s.Err? ==> s.error == ValueError(kind)
    ensures s.Ok? ==>
      (s.value.Concat? <==> kind == Combination) && (s.value.Sum? <==> kind == SumMethod)
      && (s.value.Mean? <==> kind == MeanMethod)
    ensures s.Ok? && !s.value.Concat? ==> s.value.total == r + f + m
  {
    if kind == Combination then Ok(Concat(IntToString(r) + IntToString(f) + IntToString(m)))
    else if kind == SumMethod then Ok(Sum(r + f + m))
    else if kind == MeanMethod then Ok(Mean(r + f + m))
    else Err(ValueError(kind))
  }

  /** The number a summed or averaged final score stands for. */
  function Numeric(s: FinalScore): real
    requires !s.Concat?
  {
    if s.Sum? then s.total as real else s.total as real / 3.0
  }

  /** The mean lies between the smallest and the largest of the three scores. */
  lemma MeanBetweenScores(r: int, f: int, m: int)
    ensures var s := FinalScoreOf(MeanMethod, r, f, m).value;
      Numeric(s) * 3.0 == (r + f + m) as real
      && (if r <= f && r <= m then r else if f <= m then f else m) as real <= Numeric(s)
      && Numeric(s) <= (if r >= f && r >= m then r else if f >= m then f else m) as real
  {
  }

  /** With single-digit scores the combination is the three digits in Recency, Frequency, Monetary order. */
  lemma CombinationOfDigits(r: int, f: int, m: int)
    requires 0 <= r < 10 && 0 <= f < 10 && 0 <= m < 10
    ensures FinalScoreOf(Combination, r, f, m) == Ok(Concat([DigitChar(r), DigitChar(f), DigitChar(m)]))
  {
    assert IntToString(r) == [DigitChar(r)] && IntToString(f) == [DigitChar(f)] && IntToString(m) == [DigitChar(m)];
    assert [DigitChar(r)] + [DigitChar(f)] + [DigitChar(m)] == [DigitChar(r), DigitChar(f), DigitChar(m)];
  }

  /** The combined text of single-digit scores gives the three scores back, one per character. */
  lemma {:induction false} CombinationDecodes(r: int, f: int, m: int)
    requires 0 <= r < 10 && 0 <= f < 10 && 0 <= m < 10
    ensures var t := FinalScoreOf(Combination, r, f, m).value.text;
      |t| == 3 && ParsesAsInt(t[0..1]) && ParsesAsInt(t[1..2]) && ParsesAsInt(t[2..3])
      && ParseInt(t[0..1]) == r && ParseInt(t[1..2]) == f && ParseInt(t[2..3]) == m
  {
    var t := FinalScoreOf(Combination, r, f, m).value.text;
    IntRoundTrip(r);
    IntRoundTrip(f);
    IntRoundTrip(m);
    assert t[0..1] == IntToString(r) && t[1..2] == IntToString(f) && t[2..3] == IntToString(m);
  }

  /** Two customers with single-digit scores get the same combined score only when all three scores agree. */
  lemma CombinationInjective(r: int, f: int, m: int, r': int, f': int, m': int)
    requires 0 <= r < 10 && 0 <= f < 10 && 0 <= m < 10
    requires 0 <= r' < 10 && 0 <= f' < 10 && 0 <= m' < 10
    requires FinalScoreOf(Combination, r, f, m) == FinalScoreOf(Combination, r', f', m')
    ensures r == r' && f == f' && m == m'
  {
    CombinationDecodes(r, f, m);
    CombinationDecodes(r', f', m');
  }

  /** The accented default never names a known method: without `score_method` scoring always fails. */
  lemma AccentedDefaultRejected(cfg: Option<map<string, string>>, r: int, f: int, m: int)
    requires cfg.None? || "score_method" !in cfg.value
    ensures FinalScoreOf(ScoreMethodAsWritten(cfg), r, f, m) == Err(ValueError(AccentedDefault))
  {
    assert AccentedDefault[9] != Combination[9];
  }

  /** With the corrected default, a configuration without `score_method` combines the three scores. */
  lemma DefaultCombines(cfg: Option<map<string, string>>, categories: seq<Category>, endDate: int, r: int, f: int, m: int)
    requires cfg.None? || "score_method" !in cfg.value
    ensures FinalScoreOf(SettingsFrom(cfg, categories, endDate).scoreMethod, r, f, m)
      == Ok(Concat(IntToString(r) + IntToString(f) + IntToString(m)))
  {
  }

  /** The `Final_Score` column, or the exception `calculate_final_score` raises. */
  function FinalScoreColumn(kind: string, rows: seq<RfmRow>, variables: map<string, VariableResult>)
    : (c: Result<seq<FinalScore>>)
    requires Aligned(rows, variables)
    ensures kind !in {Combination, SumMethod, MeanMethod} ==> c == Err(ValueError(kind))
    ensures kind in {Combination, SumMethod, MeanMethod}
      && !("Recency" in variables && "Frequency" in variables && "Monetary" in variables)
      ==> c.Err? && c.error.KeyError?
    ensures c.Ok? ==> |c.value| == |rows| && forall i :: 0 <= i < |rows| ==>
      FinalScoreOf(kind, variables["Recency"].scores[i], variables["Frequency"].scores[i],
                   variables["Monetary"].scores[i]) == Ok(c.value[i])
  {
    if kind !in {Combination, SumMethod, MeanMethod} then Err(ValueError(kind))
    else if "Recency" !in variables then Err(KeyError("Recency_score"))
    else if "Frequency" !in variables then Err(KeyError("Frequency_score"))
    else if "Monetary" !in variables then Err(KeyError("Monetary_score"))
    else
      var rs, fs, ms := variables["Recency"].scores, variables["Frequency"].scores, variables["Monetary"].scores;
      Ok(seq(|rows|, i requires 0 <= i < |rows| => FinalScoreOf(kind, rs[i], fs[i], ms[i]).value))
  }

  /**
   * `str(score)`: the text itself, the decimal digits of a sum, and for a mean the Python float
   * text, written out when the mean is whole and otherwise left to `floatRepr`.
   */
  function ScoreText(s: FinalScore, floatRepr: real -> string): (t: string)
    ensures s.Concat? ==> t == s.text
    ensures s.Sum? ==> ParsesAsInt(t) && ParseInt(t) == s.total
    ensures s.Mean? && s.total % 3 == 0 ==>
      |t| >= 3 && t[|t| - 2..] == ".0"
      && ParsesAsInt(t[..|t| - 2]) && ParseInt(t[..|t| - 2]) as real == Numeric(s)
  {
    match s
    case Concat(text) => text
    case Sum(total) => IntRoundTrip(total); IntToString(total)
    case Mean(total) =>
      if total % 3 == 0 then
        var whole := IntToString(total / 3);
        IntRoundTrip(total / 3);
        assert (whole + ".0")[..|whole|] == whole;
        whole + ".0"
      else floatRepr(total as real / 3.0)
  }

  /** The inner `categorize`: the first category, in declaration order, that lists the text. */
  function Categorize(text: string, cats: seq<Category>): (l: string)
    ensures (forall j :: 0 <= j < |cats| ==> text !in cats[j].values) ==> l == Uncategorized
    ensures forall i ::
      (0 <= i < |cats| && text in cats[i].values && (forall j :: 0 <= j < i ==> text !in cats[j].values))
      ==> l == cats[i].name
  {
    if |cats| == 0 then Uncategorized
    else if text in cats[0].values then cats[0].name
    else
      var rest := Categorize(text, cats[1..]);
      assert forall i :: 1 <= i < |cats| ==> cats[1..][i - 1] == cats[i];
      rest
  }

  /** `IsNew`: one month with purchases, and the last purchase falls in the end date's month. */
  predicate IsNew(row: RfmRow, endDate: int) {
    row.months == 1 && row.lastPurchase.Some? && YearMonth(row.lastPurchase.value) == YearMonth(endDate)
  }

  /** The `Business_Category` of one row. */
  function Label(row: RfmRow, score: FinalScore, s: Settings, floatRepr: real -> string): string {
    if IsNew(row, s.endDate) then NewLabel else Categorize(ScoreText(score, floatRepr), s.categories)
  }

  function Labels(rows: seq<RfmRow>, scores: seq<FinalScore>, s: Settings, floatRepr: real -> string): seq<string>
    requires |scores| == |rows|
  {
    seq(|rows|, i requires 0 <= i < |rows| => Label(rows[i], scores[i], s, floatRepr))
  }

  /** When no configured category is itself called "Nuevo", a row is labelled "Nuevo" exactly when it is new. */
  lemma NewLabelIffNew(row: RfmRow, score: FinalScore, s: Settings, floatRepr: real -> string)
    requires forall j :: 0 <= j < |s.categories| ==> s.categories[j].name != NewLabel
    ensures Label(row, score, s, floatRepr) == NewLabel <==> IsNew(row, s.endDate)
  {
    if !IsNew(row, s.endDate) {
      CategoryLabels(ScoreText(score, floatRepr), s.categories);
    }
  }

  /** A category label is the fallback or the label of a configured category that lists the text. */
  lemma {:induction false} CategoryLabels(text: string, cats: seq<Category>)
    ensures Categorize(text, cats) == Uncategorized
      || exists i :: 0 <= i < |cats| && text in cats[i].values && Categorize(text, cats) == cats[i].name
  {
    if |cats| > 0 && text !in cats[0].values {
      CategoryLabels(text, cats[1..]);
      if Categorize(text, cats[1..]) != Uncategorized {
        var i :| 0 <= i < |cats[1..]| && text in cats[1..][i].values && Categorize(text, cats[1..]) == cats[1..][i].name;
        assert cats[1..][i] == cats[i + 1];
      }
    }
  }

  /**
   * The DataFrame `process_rfm` works on: the per-customer rows with their score and range columns,
   * and the columns this class adds.
   */
  class RfmFrame {
    var rows: seq<RfmRow>
    var variables: map<string, VariableResult>
    var finalScore: Option<seq<FinalScore>>
    var category: Option<seq<string>>
    var cutoffDate: Option<int>

    ghost predicate Valid()
      reads this
    {
      Aligned(rows, variables)
      && (finalScore.Some? ==> |finalScore.value| == |rows|)
      && (category.Some? ==> |category.value| == |rows|)
    }

    constructor (t: ScoredTable)
      requires Aligned(t.rows, t.variables)
      ensures Valid()
      ensures rows == t.rows && variables == t.variables
      ensures finalScore == None && category == None && cutoffDate == None
    {
      rows := t.rows;
      variables := t.variables;
      finalScore := None;
      category := None;
      cutoffDate := None;
    }

    /**
     * `assign_business_categories` on the default score column: fails with KeyError when there is
     * no `Final_Score` column yet, and otherwise writes `Business_Category` for every row.
     */
    method AssignBusinessCategories(s: Settings, floatRepr: real -> string) returns (e: Option<Error>)
      requires Valid()
      modifies this
      ensures Valid()
      ensures rows == old(rows) && variables == old(variables)
      ensures finalScore == old(finalScore) && cutoffDate == old(cutoffDate)
      ensures old(finalScore).None? ==> e == Some(KeyError(FinalScoreColumnName)) && category == old(category)
      ensures old(finalScore).Some? ==> e == None && category == Some(Labels(rows, old(finalScore).value, s, floatRepr))
    {
      if finalScore.None? {
        return Some(KeyError(FinalScoreColumnName));
      }
      var scores := finalScore.value;
      var labels: seq<string> := [];
      for i := 0 to |rows|
        invariant |labels| == i
        invariant forall j :: 0 <= j < i ==> labels[j] == Label(rows[j], scores[j], s, floatRepr)
      {
        if IsNew(rows[i], s.endDate) {
          labels := labels + [NewLabel];
        } else {
          labels := labels + [Categorize(ScoreText(scores[i], floatRepr), s.categories)];
        }
      }
      assert labels == Labels(rows, scores, s, floatRepr);
      category := Some(labels);
      e := None;
    }

    /** `process_rfm`: the final score, then the categories, then `CutoffDate` on every row. */
    method ProcessRfm(s: Settings, floatRepr: real -> string) returns (e: Option<Error>)
      requires Valid()
      modifies this
      ensures Valid()
      ensures rows == old(rows) && variables == old(variables)
      ensures FinalScoreColumn(s.scoreMethod, old(rows), old(variables)).Err? ==>
        e == Some(FinalScoreColumn(s.scoreMethod, old(rows), old(variables)).error)
        && finalScore == old(finalScore) && category == old(category) && cutoffDate == old(cutoffDate)
      ensures FinalScoreColumn(s.scoreMethod, old(rows), old(variables)).Ok? ==>
        var col := FinalScoreColumn(s.scoreMethod, old(rows), old(variables)).value;
        e == None && finalScore == Some(col) && category == Some(Labels(rows, col, s, floatRepr))
        && cutoffDate == Some(s.endDate)
    {
      var col := FinalScoreColumn(s.scoreMethod, rows, variables);
      if col.Err? {
        return Some(col.error);
      }
      finalScore := Some(col.value);
      e := AssignBusinessCategories(s, floatRepr);
      cutoffDate := Some(s.endDate);
    }
  }
}
