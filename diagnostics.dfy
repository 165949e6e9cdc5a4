/**
  `LinearDiagnostics`: the residual table of a fitted linear model and the
  verdicts of the residual tests run on it. The statistics come from foreign
  numeric libraries and enter as opaque functions (`Statistics`); what is
  modelled is the table built around them and the fixed rule that turns each
  statistic into a verdict.
 */
module Diagnostics {
  import opened Wrappers
  import opened Frames

  /** An entry of `model_list`: the estimator's `predict` and the alias of its variable set. */
  datatype Model = Model(predict: Table<real> -> seq<real>, variables: string)

  /** The exceptions the constructor can raise while building the residual table. */
  datatype SetupError =
    | UnknownModel(model: string)
    | UnknownVariableSet(alias: string)
    | MissingColumns(names: seq<string>)
    | LengthMismatch(predicted: nat, actual: nat)

  /**
    `data_in[scoring_dict[model_list[model]['variables']]]`: the columns the
    model's variable set lists, in that order.
   */
  function PredictionSet(modelList: map<string, Model>, scoringDict: map<string, seq<string>>,
                         model: string, data: Table<real>): (r: Result<Table<real>, SetupError>)
    ensures model !in modelList ==> r == Failure(UnknownModel(model))
    ensures model in modelList && modelList[model].variables !in scoringDict ==>
      r == Failure(UnknownVariableSet(modelList[model].variables))
    ensures r.Success? ==> model in modelList && modelList[model].variables in scoringDict
    ensures r.Success? ==>
      var names := scoringDict[modelList[model].variables];
      r.value.rows == data.rows && Names(r.value.columns) == names &&
      forall i :: 0 <= i < |names| ==> Some(r.value.columns[i]) == Find(data.columns, names[i])
    ensures r.Failure? && r.error.MissingColumns? ==>
      model in modelList && modelList[model].variables in scoringDict &&
      r.error.names != [] &&
      forall n :: n in r.error.names <==>
        n in scoringDict[modelList[model].variables] && !HasColumn(data.columns, n)
  {
    if model !in modelList then Failure(UnknownModel(model))
    else
      var alias := modelList[model].variables;
      if alias !in scoringDict then Failure(UnknownVariableSet(alias))
      else match Select(data, scoringDict[alias])
        case Success(t) => Success(t)
        case Failure(missing) => Failure(MissingColumns(missing))
  }

  /** One observation of `results_df`. */
  datatype Row = Row(predicted: real, actual: real, residual: real)

  /**
    The `predicted`, `actual` and `residual` columns: predictions and targets
    paired by position, or a `ValueError` when their lengths differ.
   */
  function ResidualTable(predicted: seq<real>, actual: seq<real>): (r: Result<seq<Row>, SetupError>)
    ensures r.Failure? <==> |predicted| != |actual|
    ensures r.Failure? ==> r.error == LengthMismatch(|predicted|, |actual|)
    ensures r.Success? ==> |r.value| == |predicted|
    ensures r.Success? ==> forall i :: 0 <= i < |r.value| ==>
      r.value[i].predicted == predicted[i] && r.value[i].actual == actual[i] &&
      r.value[i].residual == actual[i] - predicted[i]
  {
    if |predicted| != |actual| then Failure(LengthMismatch(|predicted|, |actual|))
    else Success(seq(|predicted|, i requires 0 <= i < |predicted| =>
      Row(predicted[i], actual[i], actual[i] - predicted[i])))
  }

  predicate SortedByResidual(rows: seq<Row>) {
    forall i, j :: 0 <= i < j < |rows| ==> rows[i].residual <= rows[j].residual
  }

  function Insert(row: Row, rows: seq<Row>): (r: seq<Row>)
    requires SortedByResidual(rows)
    ensures SortedByResidual(r)
    ensures multiset(r) == multiset(rows) + multiset{row}
  {
    if rows == [] || row.residual <= rows[0].residual then [row] + rows
    else
      var rest := Insert(row, rows[1..]);
      assert rows == [rows[0]] + rows[1..];
      LowerBound(rows[0].residual, row, rows[1..], rest);
      ConsSorted(rows[0], rest);
      [rows[0]] + rest
  }

  lemma ConsSorted(first: Row, rest: seq<Row>)
    requires SortedByResidual(rest)
    requires forall k :: 0 <= k < |rest| ==> first.residual <= rest[k].residual
    ensures SortedByResidual([first] + rest)
  {
    var r := [first] + rest;
    forall i, j | 0 <= i < j < |r| ensures r[i].residual <= r[j].residual {
      assert r[j] == rest[j - 1];
      if i > 0 {
        assert r[i] == rest[i - 1];
      }
    }
  }

  /** A bound below `row` and below all of `rows` is below every row of their permutation `rest`. */
  lemma LowerBound(bound: real, row: Row, rows: seq<Row>, rest: seq<Row>)
    requires multiset(rest) == multiset(rows) + multiset{row}
    requires bound <= row.residual && forall k :: 0 <= k < |rows| ==> bound <= rows[k].residual
    ensures forall k :: 0 <= k < |rest| ==> bound <= rest[k].residual
  {
    forall k | 0 <= k < |rest| ensures bound <= rest[k].residual {
      assert rest[k] in multiset(rest);
      if rest[k] != row {
        assert rest[k] in rows;
      }
    }
  }

  /**
    `sort_values(by='residual')`: the same rows, each kept whole, in
    non-decreasing order of residual. The order of ties is this model's own.
   */
  function SortByResidual(rows: seq<Row>): (r: seq<Row>)
    ensures SortedByResidual(r)
    ensures multiset(r) == multiset(rows)
  {
    if rows == [] then []
    else
      assert rows == [rows[0]] + rows[1..];
      Insert(rows[0], SortByResidual(rows[1..]))
  }

  /**
    After sorting, the table still has one row per observation, and every row
    is a prediction and a target from the same position with their residual.
   */
  lemma SortedTableRows(predicted: seq<real>, actual: seq<real>)
    requires |predicted| == |actual|
    ensures |SortByResidual(ResidualTable(predicted, actual).value)| == |predicted|
    ensures forall row :: row in SortByResidual(ResidualTable(predicted, actual).value) ==>
      row.residual == row.actual - row.predicted &&
      exists i :: 0 <= i < |predicted| && row.predicted == predicted[i] && row.actual == actual[i]
  {
    var table := ResidualTable(predicted, actual).value;
    var sorted := SortByResidual(table);
    assert |sorted| == |multiset(sorted)| == |multiset(table)| == |table|;
    forall row | row in sorted
      ensures row.residual == row.actual - row.predicted
      ensures exists i :: 0 <= i < |predicted| && row.predicted == predicted[i] && row.actual == actual[i]
    {
      assert row in multiset(table);
      var i :| 0 <= i < |table| && table[i] == row;
    }
  }

  function ResidualColumn(rows: seq<Row>): (column: seq<real>)
    ensures |column| == |rows| && forall i :: 0 <= i < |rows| ==> column[i] == rows[i].residual
  {
    seq(|rows|, i requires 0 <= i < |rows| => rows[i].residual)
  }

  function ActualColumn(rows: seq<Row>): (column: seq<real>)
    ensures |column| == |rows| && forall i :: 0 <= i < |rows| ==> column[i] == rows[i].actual
  {
    seq(|rows|, i requires 0 <= i < |rows| => rows[i].actual)
  }

  function PredictedColumn(rows: seq<Row>): (column: seq<real>)
    ensures |column| == |rows| && forall i :: 0 <= i < |rows| ==> column[i] == rows[i].predicted
  {
    seq(|rows|, i requires 0 <= i < |rows| => rows[i].predicted)
  }

  /** `statsmodels`' `jarque_bera`: statistic, p-value, skew and kurtosis. */
  datatype JarqueBera = JarqueBera(statistic: real, pValue: real, skew: real, kurtosis: real)

  /** `scipy.stats.shapiro` and `scipy.stats.normaltest`: statistic and p-value. */
  datatype TestStatistic = TestStatistic(statistic: real, pValue: real)

  /** `het_breuschpagan`: Lagrange multiplier statistic, its p-value, F statistic, its p-value. */
  datatype BreuschPagan = BreuschPagan(lm: real, lmPValue: real, f: real, fPValue: real)

  /** `scipy.stats.anderson`: the statistic and one critical value per significance level. */
  datatype AndersonResult = AndersonResult(statistic: real, criticalValues: seq<real>, significanceLevels: seq<real>)

  type Anderson = a: AndersonResult | |a.criticalValues| == |a.significanceLevels|
    witness AndersonResult(0.0, [], [])

  /** The foreign numeric procedures, taken as given functions of their inputs. */
  datatype Statistics = Statistics(
    jarqueBera: seq<real> -> JarqueBera,
    shapiro: seq<real> -> TestStatistic,
    anderson: seq<real> -> Anderson,
    normalTest: seq<real> -> TestStatistic,
    durbinWatson: seq<real> -> real,
    breuschPagan: (seq<real>, Table<real>) -> BreuschPagan,
    varianceInflation: (Table<real>, nat) -> real)

  /** The outcome a test prints: whether its null hypothesis is rejected. */
  datatype Verdict = Reject | FailToReject

  /** The rule shared by four tests: keep the null hypothesis only when `p > alpha`. */
  function PValueVerdict(pValue: real, alpha: real): (v: Verdict)
    ensures v == FailToReject <==> pValue > alpha
    ensures pValue == alpha ==> v == Reject
  {
    if pValue > alpha then FailToReject else Reject
  }

  /** A larger significance level rejects at least whatever a smaller one rejects. */
  lemma RejectionGrowsWithAlpha(pValue: real, alpha: real, alpha': real)
    requires alpha <= alpha'
    ensures PValueVerdict(pValue, alpha) == Reject ==> PValueVerdict(pValue, alpha') == Reject
  {
  }

  datatype SerialCorrelation = NegativeCorrelation | NoCorrelation | PositiveCorrelation

  /** The Durbin-Watson buckets: above 2.5, above 1.5 up to 2.5, and up to 1.5. */
  function DurbinWatsonVerdict(d: real): (c: SerialCorrelation)
    ensures c == NegativeCorrelation <==> d > 2.5
    ensures c == NoCorrelation <==> 1.5 < d <= 2.5
    ensures c == PositiveCorrelation <==> d <= 1.5
  {
    if d > 2.5 then NegativeCorrelation
    else if d > 1.5 then NoCorrelation
    else PositiveCorrelation
  }

  /** One line of the Anderson-Darling report. */
  datatype LevelVerdict = LevelVerdict(significanceLevel: real, criticalValue: real, verdict: Verdict)

  /**
    The Anderson-Darling report: one verdict per tabulated level, in table
    order, keeping normality exactly when the statistic is below the level's
    critical value.
   */
  method CompareLevels(a: Anderson) returns (levels: seq<LevelVerdict>)
    ensures |levels| == |a.criticalValues|
    ensures forall i :: 0 <= i < |levels| ==>
      levels[i].significanceLevel == a.significanceLevels[i] &&
      levels[i].criticalValue == a.criticalValues[i] &&
      (levels[i].verdict == FailToReject <==> a.statistic < a.criticalValues[i])
  {
    levels := [];
    for i := 0 to |a.criticalValues|
      invariant |levels| == i
      invariant forall k :: 0 <= k < i ==>
        levels[k].significanceLevel == a.significanceLevels[k] &&
        levels[k].criticalValue == a.criticalValues[k] &&
        (levels[k].verdict == FailToReject <==> a.statistic < a.criticalValues[k])
    {
      var sl, cv := a.significanceLevels[i], a.criticalValues[i];
      var verdict := if a.statistic < cv then FailToReject else Reject;
      levels := levels + [LevelVerdict(sl, cv, verdict)];
    }
  }

  /** One row of the VIF table. */
  datatype VifRow = VifRow(feature: string, vif: real)

  /** The VIF table: one row per prediction-set column, in column order. */
  function VifTable(prdctSet: Table<real>, vif: (Table<real>, nat) -> real): (table: seq<VifRow>)
    ensures |table| == |prdctSet.columns|
    ensures forall i :: 0 <= i < |table| ==>
      table[i].feature == prdctSet.columns[i].name && table[i].vif == vif(prdctSet, i)
  {
    seq(|prdctSet.columns|, i requires 0 <= i < |prdctSet.columns| =>
      VifRow(prdctSet.columns[i].name, vif(prdctSet, i)))
  }

  function VifColumn(table: seq<VifRow>): (column: seq<real>)
    ensures |column| == |table| && forall i :: 0 <= i < |table| ==> column[i] == table[i].vif
  {
    seq(|table|, i requires 0 <= i < |table| => table[i].vif)
  }

  /** pandas' `Series.max()` of a non-empty column. */
  function MaxOf(s: seq<real>): (m: real)
    requires s != []
    ensures forall i :: 0 <= i < |s| ==> s[i] <= m
    ensures exists i :: 0 <= i < |s| && s[i] == m
  {
    if |s| == 1 then s[0]
    else
      var m := MaxOf(s[1..]);
      assert forall i :: 1 <= i < |s| ==> s[i] == s[1..][i - 1];
      if s[0] >= m then s[0] else m
  }

  /** pandas' `Series.min()` of a non-empty column. */
  function MinOf(s: seq<real>): (m: real)
    requires s != []
    ensures forall i :: 0 <= i < |s| ==> m <= s[i]
    ensures exists i :: 0 <= i < |s| && s[i] == m
  {
    if |s| == 1 then s[0]
    else
      var m := MinOf(s[1..]);
      assert forall i :: 1 <= i < |s| ==> s[i] == s[1..][i - 1];
      if s[0] <= m then s[0] else m
  }

  /**
    The multicollinearity flag, `max VIF > 5`, holds exactly when some
    feature's VIF exceeds 5; a table without rows (whose maximum pandas
    reports as NaN) never raises it.
   */
  function Multicollinear(table: seq<VifRow>): (flag: bool)
    ensures flag <==> exists i :: 0 <= i < |table| && table[i].vif > 5.0
  {
    table != [] && MaxOf(VifColumn(table)) > 5.0
  }

  /** The diagonal of the predicted-versus-actual plot, drawn from (lo, lo) to (hi, hi). */
  datatype Line = Line(lo: real, hi: real)

  /**
    The diagonal spans every actual and predicted value, and both of its ends
    are such values; an empty table has no values to span.
   */
  function ReferenceLine(rows: seq<Row>): (line: Option<Line>)
    ensures line.Some? <==> rows != []
    ensures line.Some? ==> line.value.lo <= line.value.hi
    ensures line.Some? ==> forall i :: 0 <= i < |rows| ==>
      line.value.lo <= rows[i].actual <= line.value.hi &&
      line.value.lo <= rows[i].predicted <= line.value.hi
    ensures line.Some? ==>
      exists i :: 0 <= i < |rows| && (rows[i].actual == line.value.lo || rows[i].predicted == line.value.lo)
    ensures line.Some? ==>
      exists i :: 0 <= i < |rows| && (rows[i].actual == line.value.hi || rows[i].predicted == line.value.hi)
  {
    if rows == [] then None
    else
      var minActual, minPredicted := MinOf(ActualColumn(rows)), MinOf(PredictedColumn(rows));
      var maxActual, maxPredicted := MaxOf(ActualColumn(rows)), MaxOf(PredictedColumn(rows));
      var lo := if minPredicted < minActual then minPredicted else minActual;
      var hi := if maxPredicted > maxActual then maxPredicted else maxActual;
      Some(Line(lo, hi))
  }

  class LinearDiagnostics {
    const model: string
    const data: Table<real>
    const target: seq<real>
    const alpha: real
    const prdctSet: Table<real>
    const predictions: seq<real>
    /** `results_df`, reassigned once sorted. */
    var resultsDf: seq<Row>
    /** `self.result`, present once the Anderson-Darling test has run. */
    var result: Option<Anderson>

    /**
      Builds the residual table and runs every test on it. It can only be
      called once the lookups succeed and the lengths agree; `Create` handles
      the other cases.
     */
    constructor (modelIn: string, dataIn: Table<real>, target: seq<real>,
                 scoringDict: map<string, seq<string>>, modelList: map<string, Model>,
                 significanceLevel: real, stats: Statistics)
      requires PredictionSet(modelList, scoringDict, modelIn, dataIn).Success?
      requires |modelList[modelIn].predict(PredictionSet(modelList, scoringDict, modelIn, dataIn).value)| == |target|
      ensures model == modelIn && data == dataIn && this.target == target && alpha == significanceLevel
      ensures prdctSet == PredictionSet(modelList, scoringDict, modelIn, dataIn).value
      ensures predictions == modelList[modelIn].predict(prdctSet)
      ensures resultsDf == SortByResidual(ResidualTable(predictions, target).value)
      ensures result == Some(stats.anderson(ResidualColumn(resultsDf)))
    {
      model := modelIn;
      data := dataIn;
      this.target := target;
      alpha := significanceLevel;
      var vars := modelList[modelIn].variables;
      var selected := Select(dataIn, scoringDict[vars]).value;
      prdctSet := selected;
      predictions := modelList[modelIn].predict(selected);
      resultsDf := [];
      result := None;
      new;
      resultsDf := ResidualTable(predictions, target).value;
      resultsDf := SortByResidual(resultsDf);
      var jb, jbVerdict := JbNormalTest(stats);
      var sw, swVerdict := SwNormalTest(stats);
      var levels := AdNormalTest(stats);
      var nt, ntVerdict := NormalTest(stats);
      var d, correlation := DwAutocorrTest(stats);
      var line := HomoskedasticityPlot();
      var bp, bpVerdict := BpTestHomoskedasticity(stats);
      var vifs, multicollinear := Vif(stats);
    }

    /** The constructor, with the lookup and length errors it raises as results. */
    static method Create(modelIn: string, dataIn: Table<real>, target: seq<real>,
                         scoringDict: map<string, seq<string>>, modelList: map<string, Model>,
                         significanceLevel: real, stats: Statistics)
      returns (r: Result<LinearDiagnostics, SetupError>)
      ensures PredictionSet(modelList, scoringDict, modelIn, dataIn).Failure? ==>
        r == Failure(PredictionSet(modelList, scoringDict, modelIn, dataIn).error)
      ensures PredictionSet(modelList, scoringDict, modelIn, dataIn).Success? ==>
        var predicted := modelList[modelIn].predict(PredictionSet(modelList, scoringDict, modelIn, dataIn).value);
        (r.Failure? <==> |predicted| != |target|) &&
        (r.Failure? ==> r.error == LengthMismatch(|predicted|, |target|))
      ensures r.Success? ==>
        fresh(r.value) && r.value.model == modelIn && r.value.data == dataIn &&
        r.value.target == target && r.value.alpha == significanceLevel &&
        r.value.prdctSet == PredictionSet(modelList, scoringDict, modelIn, dataIn).value &&
        r.value.predictions == modelList[modelIn].predict(r.value.prdctSet) &&
        |r.value.predictions| == |target| &&
        r.value.resultsDf == SortByResidual(ResidualTable(r.value.predictions, target).value) &&
        r.value.result == Some(stats.anderson(ResidualColumn(r.value.resultsDf)))
    {
      var prdctSet := PredictionSet(modelList, scoringDict, modelIn, dataIn);
      if prdctSet.Failure? {
        return Failure(prdctSet.error);
      }
      var predicted := modelList[modelIn].predict(prdctSet.value);
      if |predicted| != |target| {
        return Failure(LengthMismatch(|predicted|, |target|));
      }
      var diagnostics := new LinearDiagnostics(modelIn, dataIn, target, scoringDict, modelList,
                                               significanceLevel, stats);
      return Success(diagnostics);
    }

    method JbNormalTest(stats: Statistics) returns (test: JarqueBera, verdict: Verdict)
      ensures test == stats.jarqueBera(ResidualColumn(resultsDf))
      ensures verdict == PValueVerdict(test.pValue, alpha)
    {
      test := stats.jarqueBera(ResidualColumn(resultsDf));
      verdict := PValueVerdict(test.pValue, alpha);
    }

    method SwNormalTest(stats: Statistics) returns (test: TestStatistic, verdict: Verdict)
      ensures test == stats.shapiro(ResidualColumn(resultsDf))
      ensures verdict == PValueVerdict(test.pValue, alpha)
    {
      test := stats.shapiro(ResidualColumn(resultsDf));
      verdict := PValueVerdict(test.pValue, alpha);
    }

    /** Stores the library's result in `result`, then reports each level. */
    method AdNormalTest(stats: Statistics) returns (levels: seq<LevelVerdict>)
      modifies this`result
      ensures result == Some(stats.anderson(ResidualColumn(resultsDf)))
      ensures |levels| == |result.value.criticalValues|
      ensures forall i :: 0 <= i < |levels| ==>
        levels[i].significanceLevel == result.value.significanceLevels[i] &&
        levels[i].criticalValue == result.value.criticalValues[i] &&
        (levels[i].verdict == FailToReject <==> result.value.statistic < result.value.criticalValues[i])
    {
      result := Some(stats.anderson(ResidualColumn(resultsDf)));
      levels := CompareLevels(result.value);
    }

    method NormalTest(stats: Statistics) returns (test: TestStatistic, verdict: Verdict)
      ensures test == stats.normalTest(ResidualColumn(resultsDf))
      ensures verdict == PValueVerdict(test.pValue, alpha)
    {
      test := stats.normalTest(ResidualColumn(resultsDf));
      verdict := PValueVerdict(test.pValue, alpha);
    }

    method DwAutocorrTest(stats: Statistics) returns (d: real, correlation: SerialCorrelation)
      ensures d == stats.durbinWatson(ResidualColumn(resultsDf))
      ensures correlation == DurbinWatsonVerdict(d)
    {
      d := stats.durbinWatson(ResidualColumn(resultsDf));
      correlation := DurbinWatsonVerdict(d);
    }

    /** The plotted reference diagonal; the scatter plots themselves are not modelled. */
    method HomoskedasticityPlot() returns (line: Option<Line>)
      ensures line == ReferenceLine(resultsDf)
    {
      line := ReferenceLine(resultsDf);
    }

    method BpTestHomoskedasticity(stats: Statistics) returns (test: BreuschPagan, verdict: Verdict)
      ensures test == stats.breuschPagan(ResidualColumn(resultsDf), prdctSet)
      ensures verdict == PValueVerdict(test.lmPValue, alpha)
    {
      test := stats.breuschPagan(ResidualColumn(resultsDf), prdctSet);
      verdict := PValueVerdict(test.lmPValue, alpha);
    }

    method Vif(stats: Statistics) returns (table: seq<VifRow>, multicollinear: bool)
      ensures table == VifTable(prdctSet, stats.varianceInflation)
      ensures multicollinear == Multicollinear(table)
    {
      table := VifTable(prdctSet, stats.varianceInflation);
      multicollinear := table != [] && MaxOf(VifColumn(table)) > 5.0;
    }
  }
}
