/**
 * The cleaning steps of preprocessing.py and the per-source driver that folds the configured steps,
 * in order, over one table.
 */
module Preprocessing {
  import opened Common
  import opened Tables

  // ---------------------------------------------------------------------------------------------
  // Order-preserving selections
  // ---------------------------------------------------------------------------------------------

  /** `out` is the rows of `rows` at the strictly increasing positions `idx`. */
  predicate SelectedFrom(out: seq<Row>, rows: seq<Row>, idx: seq<nat>) {
    |idx| == |out|
    && (forall j :: 0 <= j < |idx| ==> idx[j] < |rows| && out[j] == rows[idx[j]])
    && (forall a, b :: 0 <= a < b < |idx| ==> idx[a] < idx[b])
  }

  /** `idx` holds every position of `rows` whose row passes `keep`. */
  predicate SelectsAll(rows: seq<Row>, idx: seq<nat>, keep: Row -> bool) {
    forall i :: 0 <= i < |rows| && keep(rows[i]) ==> i in idx
  }

  /** A selection of the tail is, with every position moved up by one, a selection of the whole. */
  lemma ShiftSelection(out: seq<Row>, rows: seq<Row>, idx: seq<nat>) returns (shifted: seq<nat>)
    requires |rows| > 0 && SelectedFrom(out, rows[1..], idx)
    ensures SelectedFrom(out, rows, shifted)
    ensures forall j :: 0 <= j < |shifted| ==> 1 <= shifted[j]
    ensures forall j :: 0 <= j < |idx| ==> shifted[j] == idx[j] + 1
  {
    shifted := seq(|idx|, j requires 0 <= j < |idx| => idx[j] + 1);
  }

  /** Putting the head in front of a selection that avoids position 0 gives a selection. */
  lemma ConsSelection(out: seq<Row>, rows: seq<Row>, idx: seq<nat>)
    requires |rows| > 0 && SelectedFrom(out, rows, idx) && forall j :: 0 <= j < |idx| ==> 1 <= idx[j]
    ensures SelectedFrom([rows[0]] + out, rows, [0] + idx)
  {
  }

  /** A complete selection of the tail, shifted by one and with the head in front when it passes, is complete. */
  lemma SelectConsHead(out: seq<Row>, rows: seq<Row>, idx: seq<nat>, keep: Row -> bool) returns (idx': seq<nat>)
    requires |rows| > 0 && SelectedFrom(out, rows[1..], idx) && SelectsAll(rows[1..], idx, keep)
    ensures SelectedFrom(if keep(rows[0]) then [rows[0]] + out else out, rows, idx')
    ensures SelectsAll(rows, idx', keep)
  {
    var shifted := ShiftSelection(out, rows, idx);
    ShiftComplete(rows, idx, shifted, keep);
    if keep(rows[0]) {
      ConsSelection(out, rows, shifted);
      idx' := [0] + shifted;
      assert forall i :: i in shifted ==> i in idx';
    } else {
      idx' := shifted;
    }
  }

  /** Moving a complete selection of the tail up by one covers every passing position after the head. */
  lemma ShiftComplete(rows: seq<Row>, idx: seq<nat>, shifted: seq<nat>, keep: Row -> bool)
    requires |rows| > 0 && SelectsAll(rows[1..], idx, keep)
    requires |shifted| == |idx| && forall j :: 0 <= j < |idx| ==> shifted[j] == idx[j] + 1
    ensures forall i :: 1 <= i < |rows| && keep(rows[i]) ==> i in shifted
  {
    forall i | 1 <= i < |rows| && keep(rows[i]) ensures i in shifted {
      assert keep(rows[1..][i - 1]);
      var j :| 0 <= j < |idx| && idx[j] == i - 1;
      assert shifted[j] == i;
    }
  }

  // ---------------------------------------------------------------------------------------------
  // remove_negative_values
  // ---------------------------------------------------------------------------------------------

  /** `cell >= 0` as pandas evaluates it: a null compares false. */
  predicate NonNegative(c: Cell) {
    c.Num? && c.x >= 0.0
  }

  /** A text or date cell cannot be compared with 0: the comparison raises TypeError. */
  predicate Incomparable(c: Cell) {
    c.Text? || c.Day?
  }

  predicate NonNegativeIn(r: Row, cols: seq<string>) {
    forall c :: c in cols ==> NonNegative(CellAt(r, c))
  }

  /** The rows that are non-negative in every one of `cols`, in their original order. */
  function KeepNonNegative(rows: seq<Row>, cols: seq<string>): (out: seq<Row>)
    ensures |out| <= |rows|
    ensures forall r :: r in out <==> r in rows && NonNegativeIn(r, cols)
  {
    if |rows| == 0 then []
    else (if NonNegativeIn(rows[0], cols) then [rows[0]] else []) + KeepNonNegative(rows[1..], cols)
  }

  /** Every qualifying row is kept as many times as the input holds it; no other row is kept. */
  lemma {:induction false} KeepNonNegativeMultiplicity(rows: seq<Row>, cols: seq<string>)
    ensures forall r :: multiset(KeepNonNegative(rows, cols))[r] == if NonNegativeIn(r, cols) then multiset(rows)[r] else 0
  {
    if |rows| > 0 {
      KeepNonNegativeMultiplicity(rows[1..], cols);
      assert rows == [rows[0]] + rows[1..];
    }
  }

  lemma {:induction false} KeepNonNegativeOrder(rows: seq<Row>, cols: seq<string>) returns (idx: seq<nat>)
    ensures SelectedFrom(KeepNonNegative(rows, cols), rows, idx)
    ensures forall i :: 0 <= i < |rows| && NonNegativeIn(rows[i], cols) ==> i in idx
  {
    if |rows| == 0 {
      idx := [];
    } else {
      var rest := KeepNonNegativeOrder(rows[1..], cols);
      var tail := KeepNonNegative(rows[1..], cols);
      assert KeepNonNegative(rows, cols) == if NonNegativeIn(rows[0], cols) then [rows[0]] + tail else tail;
      var keep := r => NonNegativeIn(r, cols);
      assert SelectsAll(rows[1..], rest, keep);
      idx := SelectConsHead(tail, rows, rest, keep);
      assert SelectsAll(rows, idx, keep);
    }
  }

  /** Filtering on A and then on B is filtering on both at once. */
  lemma {:induction false} KeepNonNegativeCompose(rows: seq<Row>, a: seq<string>, b: seq<string>)
    ensures KeepNonNegative(KeepNonNegative(rows, a), b) == KeepNonNegative(rows, a + b)
  {
    if |rows| > 0 {
      KeepNonNegativeCompose(rows[1..], a, b);
      assert NonNegativeIn(rows[0], a + b) <==> NonNegativeIn(rows[0], a) && NonNegativeIn(rows[0], b) by {
        forall c ensures c in a + b <==> c in a || c in b { }
      }
      if NonNegativeIn(rows[0], a) {
        assert KeepNonNegative(rows, a) == [rows[0]] + KeepNonNegative(rows[1..], a);
        assert KeepNonNegative(rows, a)[1..] == KeepNonNegative(rows[1..], a);
      } else {
        assert KeepNonNegative(rows, a) == KeepNonNegative(rows[1..], a);
      }
    }
  }

  /** The listed columns that the table has, in listing order. */
  function Present(cols: seq<string>, columns: seq<string>): (p: seq<string>)
    ensures forall c :: c in p <==> c in cols && c in columns
  {
    if |cols| == 0 then []
    else (if cols[0] in columns then [cols[0]] else []) + Present(cols[1..], columns)
  }

  /** One iteration of the loop: `df = df[df[column] >= 0]` when the column exists. */
  function RemoveNegativeStep(t: Table, column: string): Result<Table> {
    if column !in t.columns then Ok(t)
    else if exists r :: r in t.rows && Incomparable(CellAt(r, column)) then Err(TypeError(column))
    else Ok(Table(t.columns, KeepNonNegative(t.rows, [column])))
  }

  /** `remove_negative_values`, one listed column after another. */
  function RemoveNegative(t: Table, cols: seq<string>): Result<Table>
    decreases |cols|
  {
    if |cols| == 0 then Ok(t)
    else
      match RemoveNegativeStep(t, cols[0])
      case Err(e) => Err(e)
      case Ok(t') => RemoveNegative(t', cols[1..])
  }

  method RemoveNegativeValues(t: Table, cols: seq<string>) returns (r: Result<Table>)
    ensures r == RemoveNegative(t, cols)
  {
    var cur := t;
    for i := 0 to |cols|
      invariant RemoveNegative(cur, cols[i..]) == RemoveNegative(t, cols)
    {
      assert cols[i..][1..] == cols[i + 1..];
      var step := RemoveNegativeStep(cur, cols[i]);
      if step.Err? {
        return Err(step.error);
      }
      cur := step.value;
    }
    assert cols[|cols|..] == [];
    r := Ok(cur);
  }

  /**
   * The result keeps the columns and exactly the rows, in order, that are non-negative in every
   * listed column the table has; absent columns are ignored, and when those columns hold only
   * numbers and nulls no TypeError is raised.
   */
  lemma {:induction false} RemoveNegativeFilters(t: Table, cols: seq<string>)
    ensures (forall r, c :: r in t.rows && c in cols && c in t.columns ==> !Incomparable(CellAt(r, c)))
      ==> RemoveNegative(t, cols).Ok?
    ensures RemoveNegative(t, cols).Ok? ==>
      RemoveNegative(t, cols).value.columns == t.columns
      && RemoveNegative(t, cols).value.rows == KeepNonNegative(t.rows, Present(cols, t.columns))
    decreases |cols|
  {
    if |cols| == 0 {
      assert KeepNonNegative(t.rows, []) == t.rows by { KeepAllWhenNoColumns(t.rows); }
    } else {
      var c := cols[0];
      match RemoveNegativeStep(t, c)
      case Err(_) =>
      case Ok(t') =>
        RemoveNegativeFilters(t', cols[1..]);
        assert t'.columns == t.columns;
        if c in t.columns {
          KeepNonNegativeCompose(t.rows, [c], Present(cols[1..], t.columns));
          assert Present(cols, t.columns) == [c] + Present(cols[1..], t.columns);
        } else {
          assert Present(cols, t.columns) == Present(cols[1..], t.columns);
        }
    }
  }

  lemma {:induction false} KeepAllWhenNoColumns(rows: seq<Row>)
    ensures KeepNonNegative(rows, []) == rows
  {
    if |rows| > 0 {
      KeepAllWhenNoColumns(rows[1..]);
    }
  }

  // ---------------------------------------------------------------------------------------------
  // handle_missing_values: the 'drop' and 'zero' actions
  // ---------------------------------------------------------------------------------------------

  /** `dropna(subset=[column])`: the rows whose cell in the column is not null, in order. */
  function DropNulls(rows: seq<Row>, column: string): (out: seq<Row>)
    ensures |out| <= |rows|
    ensures forall r :: r in out <==> r in rows && CellAt(r, column) != Null
  {
    if |rows| == 0 then []
    else (if CellAt(rows[0], column) != Null then [rows[0]] else []) + DropNulls(rows[1..], column)
  }

  /** Every row with a value in the column is kept as many times as the input holds it. */
  lemma {:induction false} DropNullsMultiplicity(rows: seq<Row>, column: string)
    ensures forall r :: multiset(DropNulls(rows, column))[r] == if CellAt(r, column) != Null then multiset(rows)[r] else 0
  {
    if |rows| > 0 {
      DropNullsMultiplicity(rows[1..], column);
      assert rows == [rows[0]] + rows[1..];
    }
  }

  lemma {:induction false} DropNullsOrder(rows: seq<Row>, column: string) returns (idx: seq<nat>)
    ensures SelectedFrom(DropNulls(rows, column), rows, idx)
    ensures forall i :: 0 <= i < |rows| && CellAt(rows[i], column) != Null ==> i in idx
  {
    if |rows| == 0 {
      idx := [];
    } else {
      var rest := DropNullsOrder(rows[1..], column);
      var tail := DropNulls(rows[1..], column);
      assert DropNulls(rows, column) == if CellAt(rows[0], column) != Null then [rows[0]] + tail else tail;
      var keep := r => CellAt(r, column) != Null;
      assert SelectsAll(rows[1..], rest, keep);
      idx := SelectConsHead(tail, rows, rest, keep);
      assert SelectsAll(rows, idx, keep);
    }
  }

  /** `fillna(0)` on one column: nulls there become 0 and nothing else changes. */
  function ZeroFill(rows: seq<Row>, column: string): (out: seq<Row>)
    ensures |out| == |rows|
    ensures forall i :: 0 <= i < |rows| ==> CellAt(out[i], column) != Null
    ensures forall i :: 0 <= i < |rows| && CellAt(rows[i], column) == Null ==> CellAt(out[i], column) == Num(0.0)
    ensures forall i :: 0 <= i < |rows| && CellAt(rows[i], column) != Null ==> out[i] == rows[i]
    ensures forall i, d :: 0 <= i < |rows| && d != column ==> CellAt(out[i], d) == CellAt(rows[i], d)
  {
    seq(|rows|, i requires 0 <= i < |rows| =>
      if CellAt(rows[i], column) == Null then rows[i][column := Num(0.0)] else rows[i])
  }

  /**
   * One iteration of the strategy loop. An absent column and an unknown action change nothing;
   * 'mean' and 'median' are not part of this model and change nothing either.
   */
  function MissingStep(t: Table, column: string, action: string): (t': Table)
    ensures t'.columns == t.columns && |t'.rows| <= |t.rows|
  {
    if column !in t.columns then t
    else if action == "drop" then Table(t.columns, DropNulls(t.rows, column))
    else if action == "zero" then Table(t.columns, ZeroFill(t.rows, column))
    else t
  }

  /** `handle_missing_values`: the strategy's (column, action) entries in order. */
  function HandleMissing(t: Table, strategy: seq<(string, string)>): (t': Table)
    ensures t'.columns == t.columns && |t'.rows| <= |t.rows|
    decreases |strategy|
  {
    if |strategy| == 0 then t
    else HandleMissing(MissingStep(t, strategy[0].0, strategy[0].1), strategy[1..])
  }

  method HandleMissingValues(t: Table, strategy: seq<(string, string)>) returns (r: Table)
    ensures r == HandleMissing(t, strategy)
  {
    r := t;
    for i := 0 to |strategy|
      invariant HandleMissing(r, strategy[i..]) == HandleMissing(t, strategy)
    {
      assert strategy[i..][1..] == strategy[i + 1..];
      r := MissingStep(r, strategy[i].0, strategy[i].1);
    }
    assert strategy[|strategy|..] == [];
  }

  predicate NoNulls(rows: seq<Row>, column: string) {
    forall r :: r in rows ==> CellAt(r, column) != Null
  }

  /** No action of the strategy loop puts a null back into a column. */
  lemma MissingStepKeepsNoNulls(t: Table, column: string, action: string, d: string)
    requires NoNulls(t.rows, d)
    ensures NoNulls(MissingStep(t, column, action).rows, d)
  {
    if column in t.columns && action == "zero" {
      var out := ZeroFill(t.rows, column);
      forall r | r in out ensures CellAt(r, d) != Null {
        var i :| 0 <= i < |out| && out[i] == r;
        if d != column {
          assert CellAt(out[i], d) == CellAt(t.rows[i], d);
          assert t.rows[i] in t.rows;
        }
      }
    }
  }

  /** After the strategy, no present column whose action is 'drop' or 'zero' holds a null. */
  lemma {:induction false} HandleMissingClearsNulls(t: Table, strategy: seq<(string, string)>)
    ensures forall k ::
      (0 <= k < |strategy| && strategy[k].0 in t.columns && strategy[k].1 in {"drop", "zero"})
      ==> NoNulls(HandleMissing(t, strategy).rows, strategy[k].0)
    decreases |strategy|
  {
    if |strategy| > 0 {
      var t' := MissingStep(t, strategy[0].0, strategy[0].1);
      HandleMissingClearsNulls(t', strategy[1..]);
      forall k | 0 <= k < |strategy| && strategy[k].0 in t.columns && strategy[k].1 in {"drop", "zero"}
        ensures NoNulls(HandleMissing(t, strategy).rows, strategy[k].0)
      {
        if k == 0 {
          KeepsNoNulls(t', strategy[1..], strategy[0].0);
        } else {
          assert strategy[1..][k - 1] == strategy[k];
        }
      }
    }
  }

  lemma {:induction false} KeepsNoNulls(t: Table, strategy: seq<(string, string)>, d: string)
    requires NoNulls(t.rows, d)
    ensures NoNulls(HandleMissing(t, strategy).rows, d)
    decreases |strategy|
  {
    if |strategy| > 0 {
      MissingStepKeepsNoNulls(t, strategy[0].0, strategy[0].1, d);
      KeepsNoNulls(MissingStep(t, strategy[0].0, strategy[0].1), strategy[1..], d);
    }
  }

  // ---------------------------------------------------------------------------------------------
  // handle_duplicates
  // ---------------------------------------------------------------------------------------------

  /** pandas' `keep` argument: 'first', 'last', False, or anything else (rejected). */
  datatype Keep = KeepFirst | KeepLast | KeepNone | KeepOther(given: string)

  /** The cells of a row in the key columns; nulls compare equal, as in `drop_duplicates`. */
  function KeyOf(r: Row, key: seq<string>): seq<Cell> {
    seq(|key|, k requires 0 <= k < |key| => CellAt(r, key[k]))
  }

  /** Whether row i survives: no earlier, no later, or no other row has its key. */
  predicate Kept(rows: seq<Row>, key: seq<string>, keep: Keep, i: nat)
    requires i < |rows|
  {
    match keep
    case KeepFirst => forall j :: 0 <= j < i ==> KeyOf(rows[j], key) != KeyOf(rows[i], key)
    case KeepLast => forall j :: i < j < |rows| ==> KeyOf(rows[j], key) != KeyOf(rows[i], key)
    case KeepNone => forall j :: 0 <= j < |rows| && j != i ==> KeyOf(rows[j], key) != KeyOf(rows[i], key)
    case KeepOther(_) => true
  }

  /** The surviving positions below k, in increasing order. */
  function KeptIndices(rows: seq<Row>, key: seq<string>, keep: Keep, k: nat): (idx: seq<nat>)
    requires k <= |rows|
    ensures |idx| <= k
    ensures forall j :: 0 <= j < |idx| ==> idx[j] < k && Kept(rows, key, keep, idx[j])
    ensures forall a, b :: 0 <= a < b < |idx| ==> idx[a] < idx[b]
    ensures forall i :: 0 <= i < k && Kept(rows, key, keep, i) ==> i in idx
  {
    if k == 0 then []
    else KeptIndices(rows, key, keep, k - 1) + (if Kept(rows, key, keep, k - 1) then [k - 1] else [])
  }

  function Dedup(rows: seq<Row>, key: seq<string>, keep: Keep): seq<Row> {
    var idx := KeptIndices(rows, key, keep, |rows|);
    seq(|idx|, j requires 0 <= j < |idx| => rows[idx[j]])
  }

  /** The first key column the table lacks. */
  function MissingKeyColumn(key: seq<string>, columns: seq<string>): (m: Option<string>)
    ensures m.None? <==> forall c :: c in key ==> c in columns
    ensures m.Some? ==> m.value in key && m.value !in columns
  {
    if |key| == 0 then None
    else if key[0] !in columns then Some(key[0])
    else MissingKeyColumn(key[1..], columns)
  }

  /**
   * `handle_duplicates`: the key is the subset, or every column. An empty table comes back as it
   * is; otherwise a key column the table lacks raises KeyError and an unknown `keep` ValueError.
   */
  function HandleDuplicates(t: Table, subset: Option<seq<string>>, keep: Keep): (r: Result<Table>)
    ensures |t.rows| == 0 ==> r == Ok(t)
    ensures |t.rows| > 0 && (exists c :: c in subset.GetOr(t.columns) && c !in t.columns) ==> r.Err? && r.error.KeyError?
    ensures |t.rows| > 0 && (forall c :: c in subset.GetOr(t.columns) ==> c in t.columns) && keep.KeepOther?
      ==> r.Err? && r.error.ValueError?
    ensures r.Ok? ==> r.value.columns == t.columns && |r.value.rows| <= |t.rows|
  {
    if |t.rows| == 0 then Ok(t)
    else
      var key := subset.GetOr(t.columns);
      match MissingKeyColumn(key, t.columns)
      case Some(c) => Err(KeyError(c))
      case None =>
        if keep.KeepOther? then Err(ValueError("keep"))
        else Ok(Table(t.columns, Dedup(t.rows, key, keep)))
  }

  /** Under every accepted `keep`, no two surviving rows share a key, and the survivors keep their order. */
  lemma DedupDistinctKeys(rows: seq<Row>, key: seq<string>, keep: Keep)
    requires !keep.KeepOther?
    ensures var out := Dedup(rows, key, keep);
      forall a, b :: 0 <= a < b < |out| ==> KeyOf(out[a], key) != KeyOf(out[b], key)
    ensures SelectedFrom(Dedup(rows, key, keep), rows, KeptIndices(rows, key, keep, |rows|))
  {
  }

  /** With 'first', the earliest row of each key survives. */
  lemma {:induction false} EarliestOfKey(rows: seq<Row>, key: seq<string>, i: nat) returns (i0: nat)
    requires i < |rows|
    ensures i0 <= i && KeyOf(rows[i0], key) == KeyOf(rows[i], key) && Kept(rows, key, KeepFirst, i0)
  {
    if Kept(rows, key, KeepFirst, i) {
      i0 := i;
    } else {
      var j :| 0 <= j < i && KeyOf(rows[j], key) == KeyOf(rows[i], key);
      i0 := EarliestOfKey(rows, key, j);
    }
  }

  /** With 'last', the latest row of each key survives. */
  lemma {:induction false} LatestOfKey(rows: seq<Row>, key: seq<string>, i: nat) returns (i0: nat)
    requires i < |rows|
    ensures i <= i0 < |rows| && KeyOf(rows[i0], key) == KeyOf(rows[i], key) && Kept(rows, key, KeepLast, i0)
    decreases |rows| - i
  {
    if Kept(rows, key, KeepLast, i) {
      i0 := i;
    } else {
      var j :| i < j < |rows| && KeyOf(rows[j], key) == KeyOf(rows[i], key);
      i0 := LatestOfKey(rows, key, j);
    }
  }

  /** With 'first' or 'last', every key of the input still has a row in the output. */
  lemma DedupCoversKeys(rows: seq<Row>, key: seq<string>, keep: Keep, i: nat)
    requires keep == KeepFirst || keep == KeepLast
    requires i < |rows|
    ensures exists j :: 0 <= j < |Dedup(rows, key, keep)| && KeyOf(Dedup(rows, key, keep)[j], key) == KeyOf(rows[i], key)
  {
    var idx := KeptIndices(rows, key, keep, |rows|);
    var i0: nat;
    if keep == KeepFirst {
      i0 := EarliestOfKey(rows, key, i);
    } else {
      i0 := LatestOfKey(rows, key, i);
    }
    assert i0 in idx;
    var j :| 0 <= j < |idx| && idx[j] == i0;
    assert Dedup(rows, key, keep)[j] == rows[i0];
  }

  /** With False, a row survives exactly when no other row shares its key. */
  lemma DedupNoneKeepsUnique(rows: seq<Row>, key: seq<string>, i: nat)
    requires i < |rows|
    ensures i in KeptIndices(rows, key, KeepNone, |rows|)
      <==> forall j :: 0 <= j < |rows| && j != i ==> KeyOf(rows[j], key) != KeyOf(rows[i], key)
  {
  }

  // ---------------------------------------------------------------------------------------------
  // The step dispatcher and the per-source driver
  // ---------------------------------------------------------------------------------------------

  /** The `params` of one step, each entry at its default when the configuration omits it. */
  datatype Params = Params(strategy: seq<(string, string)>, columns: seq<string>,
                           subset: Option<seq<string>>, keep: Keep)

  datatype StepConfig = StepConfig(step: Option<string>, params: Params)

  predicate IsAvailable(name: Option<string>) {
    name.Some? && name.value in {"handle_missing_values", "remove_negative_values", "handle_duplicates", "cast_column_types"}
  }

  /** `AVAILABLE_STEPS[step_name](df, params)`; casting is not part of this model and changes nothing. */
  function ApplyStep(t: Table, name: string, p: Params): (r: Result<Table>)
    ensures r.Ok? ==> r.value.columns == t.columns && |r.value.rows| <= |t.rows|
  {
    if name == "handle_missing_values" then Ok(HandleMissing(t, p.strategy))
    else if name == "remove_negative_values" then
      RemoveNegativeFilters(t, p.columns);
      RemoveNegative(t, p.columns)
    else if name == "handle_duplicates" then HandleDuplicates(t, p.subset, p.keep)
    else Ok(t)
  }

  /** The loop of `apply_preprocessing_to_source`: unknown steps are skipped, an exception ends it. */
  function Preprocess(t: Table, steps: seq<StepConfig>): Result<Table>
    decreases |steps|
  {
    if |steps| == 0 then Ok(t)
    else if !IsAvailable(steps[0].step) then Preprocess(t, steps[1..])
    else
      match ApplyStep(t, steps[0].step.value, steps[0].params)
      case Err(e) => Err(e)
      case Ok(t') => Preprocess(t', steps[1..])
  }

  function StepsFor(config: map<string, seq<StepConfig>>, source: string): seq<StepConfig> {
    if source in config then config[source] else []
  }

  method RunStep(t: Table, name: string, p: Params) returns (r: Result<Table>)
    ensures r == ApplyStep(t, name, p)
  {
    if name == "handle_missing_values" {
      var t' := HandleMissingValues(t, p.strategy);
      r := Ok(t');
    } else if name == "remove_negative_values" {
      r := RemoveNegativeValues(t, p.columns);
    } else if name == "handle_duplicates" {
      r := HandleDuplicates(t, p.subset, p.keep);
    } else {
      r := Ok(t);
    }
  }

  /** `apply_preprocessing_to_source`. */
  method ApplyPreprocessingToSource(t: Table, source: string, config: map<string, seq<StepConfig>>)
    returns (r: Result<Table>)
    ensures r == Preprocess(t, StepsFor(config, source))
  {
    var steps := StepsFor(config, source);
    if |steps| == 0 {
      return Ok(t);
    }
    var cur := t;
    for i := 0 to |steps|
      invariant Preprocess(cur, steps[i..]) == Preprocess(t, steps)
    {
      assert steps[i..][1..] == steps[i + 1..];
      if !IsAvailable(steps[i].step) {
        continue;
      }
      var next := RunStep(cur, steps[i].step.value, steps[i].params);
      if next.Err? {
        return Err(next.error);
      }
      cur := next.value;
    }
    assert steps[|steps|..] == [];
    r := Ok(cur);
  }

  /** The steps with a known name, in order. */
  function AvailableSteps(steps: seq<StepConfig>): (known: seq<StepConfig>)
    ensures forall s :: s in known <==> s in steps && IsAvailable(s.step)
  {
    if |steps| == 0 then []
    else (if IsAvailable(steps[0].step) then [steps[0]] else []) + AvailableSteps(steps[1..])
  }

  /** Skipping an unknown step is the same as leaving it out of the configuration. */
  lemma {:induction false} UnknownStepsIgnored(t: Table, steps: seq<StepConfig>)
    ensures Preprocess(t, steps) == Preprocess(t, AvailableSteps(steps))
    decreases |steps|
  {
    if |steps| > 0 {
      var known := AvailableSteps(steps);
      if IsAvailable(steps[0].step) {
        assert known[0] == steps[0] && known[1..] == AvailableSteps(steps[1..]);
        match ApplyStep(t, steps[0].step.value, steps[0].params)
        case Err(_) =>
        case Ok(t') => UnknownStepsIgnored(t', steps[1..]);
      } else {
        assert known == AvailableSteps(steps[1..]);
        UnknownStepsIgnored(t, steps[1..]);
      }
    }
  }

  /** Preprocessing never changes a table's columns and never adds rows. */
  lemma {:induction false} PreprocessShape(t: Table, steps: seq<StepConfig>)
    ensures Preprocess(t, steps).Ok? ==>
      Preprocess(t, steps).value.columns == t.columns && |Preprocess(t, steps).value.rows| <= |t.rows|
    decreases |steps|
  {
    if |steps| > 0 {
      if !IsAvailable(steps[0].step) {
        PreprocessShape(t, steps[1..]);
      } else {
        match ApplyStep(t, steps[0].step.value, steps[0].params)
        case Err(_) =>
        case Ok(t') => PreprocessShape(t', steps[1..]);
      }
    }
  }

  /**
   * `apply_preprocessing_to_all_sources`: every source, in order, under its own key; the first
   * source whose preprocessing raises ends it with that exception.
   */
  function PreprocessAll(sources: seq<(string, Table)>, config: map<string, seq<StepConfig>>)
    : (r: Result<seq<(string, Table)>>)
    ensures r.Ok? ==> |r.value| == |sources| && forall i :: 0 <= i < |sources| ==>
      r.value[i].0 == sources[i].0 && Preprocess(sources[i].1, StepsFor(config, sources[i].0)) == Ok(r.value[i].1)
    ensures r.Err? ==>
      exists i :: 0 <= i < |sources| && Preprocess(sources[i].1, StepsFor(config, sources[i].0)) == Err(r.error)
        && (forall j :: 0 <= j < i ==> Preprocess(sources[j].1, StepsFor(config, sources[j].0)).Ok?)
    ensures (forall i :: 0 <= i < |sources| ==> Preprocess(sources[i].1, StepsFor(config, sources[i].0)).Ok?) ==> r.Ok?
  {
    if |sources| == 0 then Ok([])
    else
      match Preprocess(sources[0].1, StepsFor(config, sources[0].0))
      case Err(e) => Err(e)
      case Ok(t) =>
        match PreprocessAll(sources[1..], config)
        case Err(e) => Err(e)
        case Ok(rest) => Ok([(sources[0].0, t)] + rest)
  }
}
