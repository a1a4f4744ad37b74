/**
 * `ModelTrainer.initiate_model_training`: split the combined train and test
 * arrays into features and target, score a fixed roster of seven regressors,
 * keep the best one if it reaches the acceptance threshold, save it and
 * score it once more.
 *
 * Scores are abstracted to `real`: the selection only compares them.
 * Fitting and scoring (`evaluate_models`, `predict`, `r2_score`) are not
 * modelled; they are the function parameters `Evaluator` and `Scorer`.
 */
module ModelTrainer {
  import opened Wrappers
  import PyList

  type Score = real

  /** Line 59: a best score below this rejects the run. */
  const AcceptanceThreshold: Score := 0.6

  /** Line 24: `os.path.join("artifacts", "model.pkl")` on a POSIX system. */
  const TrainedModelPath: string := "artifacts/model.pkl"

  // ---------------------------------------------------------------------
  // Arrays: the combined arrays built by `np.c_[features, target]`
  // ---------------------------------------------------------------------

  /** A two-dimensional numpy array: its column count and its rows. */
  datatype Array2 = Array2(width: nat, rows: seq<seq<real>>)

  /** numpy arrays are rectangular: every row has `width` entries. */
  predicate WellShaped(a: Array2) {
    forall i :: 0 <= i < |a.rows| ==> |a.rows[i]| == a.width
  }

  /** The exceptions the operation can meet before it re-wraps them. */
  datatype Cause =
    | IndexError        // `a[:, -1]` on an array with no column
    | ValueError        // `max` of an empty report; `np.c_` on unequal row counts
    | TypeError         // line 60 calls `CustomException` with one argument out of two
    | KeyError(key: string)  // `models[name]` for a name the roster lacks

  /**
   * Lines 35-40: `a[:, :-1]` and `a[:, -1]`. The features are every column
   * but the last, the target is the last column, and each row is its
   * features followed by its target.
   */
  function SplitFeaturesTarget(a: Array2): (r: Result<(Array2, seq<real>), Cause>)
    requires WellShaped(a)
    ensures r.Err? <==> a.width == 0
    ensures r.Err? ==> r.error == IndexError
    ensures r.Ok? ==>
      var (x, y) := r.value;
      && WellShaped(x) && x.width == a.width - 1
      && |x.rows| == |a.rows| && |y| == |a.rows|
      && forall i :: 0 <= i < |a.rows| ==> a.rows[i] == x.rows[i] + [y[i]]
  {
    if a.width == 0 then Err(IndexError)
    else
      var last := a.width - 1;
      var x := Array2(last, seq(|a.rows|, i requires 0 <= i < |a.rows| => a.rows[i][..last]));
      var y := seq(|a.rows|, i requires 0 <= i < |a.rows| => a.rows[i][last]);
      assert forall i :: 0 <= i < |a.rows| ==> a.rows[i] == x.rows[i] + [y[i]] by {
        forall i | 0 <= i < |a.rows| ensures a.rows[i] == x.rows[i] + [y[i]] {
          assert a.rows[i] == a.rows[i][..last] + [a.rows[i][last]];
        }
      }
      Ok((x, y))
  }

  /**
   * `np.c_[x, y]` for a matrix and a vector, as data_transformation.py
   * builds the arrays: the target becomes a trailing column.
   */
  function AppendTargetColumn(x: Array2, y: seq<real>): (r: Result<Array2, Cause>)
    requires WellShaped(x)
    ensures r.Err? <==> |y| != |x.rows|
    ensures r.Err? ==> r.error == ValueError
    ensures r.Ok? ==>
      && WellShaped(r.value) && r.value.width == x.width + 1
      && |r.value.rows| == |x.rows|
      && forall i :: 0 <= i < |x.rows| ==>
           r.value.rows[i][..x.width] == x.rows[i] && r.value.rows[i][x.width] == y[i]
  {
    if |y| != |x.rows| then Err(ValueError)
    else
      var rows := seq(|x.rows|, i requires 0 <= i < |x.rows| => x.rows[i] + [y[i]]);
      assert forall i :: 0 <= i < |x.rows| ==> rows[i][..x.width] == x.rows[i];
      Ok(Array2(x.width + 1, rows))
  }

  /** Splitting an array built by appending a target returns what was appended to. */
  lemma SplitAfterAppend(x: Array2, y: seq<real>)
    requires WellShaped(x) && |y| == |x.rows|
    ensures AppendTargetColumn(x, y).Ok?
    ensures WellShaped(AppendTargetColumn(x, y).value)
    ensures SplitFeaturesTarget(AppendTargetColumn(x, y).value) == Ok((x, y))
  {
    var a := AppendTargetColumn(x, y).value;
    var (x', y') := SplitFeaturesTarget(a).value;
    assert x'.rows == x.rows by {
      forall i | 0 <= i < |x.rows| ensures x'.rows[i] == x.rows[i] {
        assert a.rows[i] == x'.rows[i] + [y'[i]];
        assert a.rows[i][..x.width] == x'.rows[i];
      }
    }
    assert y' == y by {
      forall i | 0 <= i < |y| ensures y'[i] == y[i] {
        assert a.rows[i] == x'.rows[i] + [y'[i]];
      }
    }
  }

  /** And appending the target back to a split array rebuilds the array. */
  lemma AppendAfterSplit(a: Array2)
    requires WellShaped(a) && a.width > 0
    ensures SplitFeaturesTarget(a).Ok?
    ensures var (x, y) := SplitFeaturesTarget(a).value;
            WellShaped(x) && |y| == |x.rows| && AppendTargetColumn(x, y) == Ok(a)
  {
    var (x, y) := SplitFeaturesTarget(a).value;
    var b := AppendTargetColumn(x, y).value;
    assert b.rows == a.rows by {
      forall i | 0 <= i < |a.rows| ensures b.rows[i] == a.rows[i] {
        assert b.rows[i] == b.rows[i][..x.width] + [b.rows[i][x.width]];
      }
    }
  }

  // ---------------------------------------------------------------------
  // The candidate roster (lines 42-50)
  // ---------------------------------------------------------------------

  /** The regressor families the module imports, as untrained configurations. */
  datatype Regressor =
    | RandomForest | DecisionTree | GradientBoosting | LinearRegression
    | XGB | CatBoost(verbose: bool) | AdaBoost
    | KNeighbors  // imported at line 13, never a candidate

  datatype Candidate = Candidate(name: string, model: Regressor)

  predicate DistinctNames(models: seq<Candidate>) {
    forall i, j :: 0 <= i < j < |models| ==> models[i].name != models[j].name
  }

  /** The `models` dictionary, in insertion order. */
  function Models(): (roster: seq<Candidate>)
    ensures |roster| == 7
    ensures DistinctNames(roster)
    ensures forall i :: 0 <= i < |roster| ==> roster[i].model != KNeighbors
    ensures forall i, j :: 0 <= i < j < |roster| ==> roster[i].model != roster[j].model
  {
    [ Candidate("Random Forest", RandomForest),
      Candidate("Decision Tree", DecisionTree),
      Candidate("Gradient Boosting", GradientBoosting),
      Candidate("Linear Regression", LinearRegression),
      Candidate("XGBRegressor", XGB),
      Candidate("CatBoosting Regressor", CatBoost(false)),
      Candidate("AdaBoost Regressor", AdaBoost) ]
  }

  /** `models[name]`: a dictionary lookup, `None` standing for `KeyError`. */
  function LookupModel(models: seq<Candidate>, name: string): (r: Option<Regressor>)
    ensures r.None? <==> forall i :: 0 <= i < |models| ==> models[i].name != name
    ensures r.Some? ==> Candidate(name, r.value) in models
  {
    if models == [] then None
    else if models[0].name == name then Some(models[0].model)
    else LookupModel(models[1..], name)
  }

  /** With unique names, looking up an entry's name gives that entry's model. */
  lemma LookupDistinct(models: seq<Candidate>, i: nat)
    requires DistinctNames(models) && i < |models|
    ensures LookupModel(models, models[i].name) == Some(models[i].model)
  {
  }

  // ---------------------------------------------------------------------
  // The report and the best score (line 57)
  // ---------------------------------------------------------------------

  /** One `name: score` item of `model_report`. */
  datatype Entry = Entry(name: string, score: Score)

  /** `model_report`, a dictionary in insertion order. */
  type Report = seq<Entry>

  /** `list(model_report.keys())`. */
  function Keys(report: Report): (ks: seq<string>)
    ensures |ks| == |report| && forall i :: 0 <= i < |report| ==> ks[i] == report[i].name
  {
    seq(|report|, i requires 0 <= i < |report| => report[i].name)
  }

  /** `list(model_report.values())`. */
  function Values(report: Report): (vs: seq<Score>)
    ensures |vs| == |report| && forall i :: 0 <= i < |report| ==> vs[i] == report[i].score
  {
    seq(|report|, i requires 0 <= i < |report| => report[i].score)
  }

  predicate IsSorted(s: seq<Score>) {
    forall i, j :: 0 <= i < j < |s| ==> s[i] <= s[j]
  }

  /** Places `x` in the sorted `s`. */
  function Insert(x: Score, s: seq<Score>): (r: seq<Score>)
    requires IsSorted(s)
    ensures |r| == |s| + 1
    ensures r[0] == x || (|s| > 0 && r[0] == s[0])
    ensures IsSorted(r)
  {
    if s == [] then [x]
    else if x <= s[0] then [x] + s
    else
      var rest := Insert(x, s[1..]);
      assert s[0] <= rest[0];
      [s[0]] + rest
  }

  /** Inserting adds exactly `x`. */
  lemma {:induction false} InsertMultiset(x: Score, s: seq<Score>)
    requires IsSorted(s)
    ensures multiset(Insert(x, s)) == multiset(s) + multiset{x}
  {
    if s != [] && x > s[0] {
      assert s == [s[0]] + s[1..];
      InsertMultiset(x, s[1..]);
    }
  }

  /** `sorted(values)`: the values in ascending order. */
  function Sort(s: seq<Score>): (r: seq<Score>)
    ensures |r| == |s|
    ensures IsSorted(r)
  {
    if s == [] then [] else Insert(s[0], Sort(s[1..]))
  }

  /** Sorting rearranges: the sorted values are the values. */
  lemma {:induction false} SortMultiset(s: seq<Score>)
    ensures multiset(Sort(s)) == multiset(s)
  {
    if s != [] {
      assert s == [s[0]] + s[1..];
      SortMultiset(s[1..]);
      InsertMultiset(s[0], Sort(s[1..]));
    }
  }

  /** `max(values)`: a value of `s` no value of `s` exceeds. */
  function Max(s: seq<Score>): (m: Score)
    requires |s| > 0
    ensures m in s
    ensures forall i :: 0 <= i < |s| ==> s[i] <= m
  {
    if |s| == 1 then s[0]
    else
      var rest := Max(s[1..]);
      assert forall i :: 1 <= i < |s| ==> s[i] == s[1..][i - 1];
      if s[0] < rest then rest else s[0]
  }

  /** Sorting first, as line 57 does, does not change the maximum. */
  lemma MaxOfSorted(s: seq<Score>)
    requires |s| > 0
    ensures Max(Sort(s)) == Max(s)
  {
    var t := Sort(s);
    SortMultiset(s);
    var a, b := Max(t), Max(s);
    assert a in multiset(s);
    assert b in multiset(t);
  }

  /**
   * Line 57, `max(sorted(model_report.values()))`: one of the report's
   * scores that no score of the report exceeds; `ValueError` on an empty
   * report.
   */
  function BestModelScore(report: Report): (r: Result<Score, Cause>)
    ensures r.Err? <==> |report| == 0
    ensures r.Err? ==> r.error == ValueError
    ensures r.Ok? ==> r.value == Max(Values(report))
    ensures r.Ok? ==> exists k :: 0 <= k < |report| && report[k].score == r.value
    ensures r.Ok? ==> forall i :: 0 <= i < |report| ==> report[i].score <= r.value
  {
    if |report| == 0 then Err(ValueError)
    else
      var values := Values(report);
      MaxOfSorted(values);
      Ok(Max(Sort(values)))
  }

  /**
   * Line 64, `list(model_report.values()).index(best_model_score)`: the
   * first report position holding the best score; every earlier score is
   * strictly smaller.
   */
  function BestModelIndex(report: Report): (k: nat)
    requires |report| > 0
    ensures k < |report| && report[k].score == Max(Values(report))
    ensures forall j :: 0 <= j < k ==> report[j].score < Max(Values(report))
  {
    var values := Values(report);
    PyList.IndexOf(values, Max(values)).value
  }

  // ---------------------------------------------------------------------
  // Selection (lines 57-66)
  // ---------------------------------------------------------------------

  /** The outcome of lines 57-66: the report position, name and model chosen, and its score. */
  datatype Selection = Selection(index: nat, name: string, model: Regressor, bestScore: Score)

  /**
   * Lines 57-66, in their order: the best score (ValueError on an empty
   * report), the threshold gate (TypeError, see `Cause`), the first report
   * position holding that score, its name, and the roster model under it
   * (KeyError if missing).
   */
  function SelectBestModel(report: Report, models: seq<Candidate>): (r: Result<Selection, Cause>)
    ensures |report| == 0 ==> r == Err(ValueError)
    ensures |report| > 0 && Max(Values(report)) < AcceptanceThreshold ==> r == Err(TypeError)
    ensures r.Ok? ==>
      var s := r.value;
      && s.index < |report|
      && s.bestScore >= AcceptanceThreshold
      && s.bestScore == Max(Values(report))
      && report[s.index] == Entry(s.name, s.bestScore)
      && (forall j :: 0 <= j < |report| ==> report[j].score <= s.bestScore)
      && (forall j :: 0 <= j < s.index ==> report[j].score < s.bestScore)
      && LookupModel(models, s.name) == Some(s.model)
  {
    match BestModelScore(report)
    case Err(cause) => Err(cause)
    case Ok(best) =>
      if best < AcceptanceThreshold then Err(TypeError)
      else
        var k := BestModelIndex(report);
        var name := Keys(report)[k];
        match LookupModel(models, name)
        case None => Err(KeyError(name))
        case Some(model) => Ok(Selection(k, name, model, best))
  }

  /**
   * The remaining way the selection fails, line 66: once the gate passes,
   * it fails with KeyError exactly when the selected name, the first report
   * name with the best score, is not in the roster, and the error names it.
   */
  lemma SelectBestModelKeyError(report: Report, models: seq<Candidate>)
    ensures var r := SelectBestModel(report, models);
            r.Err? && r.error.KeyError? ==>
              && |report| > 0
              && r.error.key == report[BestModelIndex(report)].name
              && LookupModel(models, r.error.key).None?
    ensures |report| > 0 && Max(Values(report)) >= AcceptanceThreshold
            && LookupModel(models, report[BestModelIndex(report)].name).Some?
            ==> SelectBestModel(report, models).Ok?
    ensures |report| > 0 && Max(Values(report)) >= AcceptanceThreshold
            && LookupModel(models, report[BestModelIndex(report)].name).None?
            ==> SelectBestModel(report, models) == Err(KeyError(report[BestModelIndex(report)].name))
  {
    if |report| > 0 && Max(Values(report)) >= AcceptanceThreshold {
      var k := BestModelIndex(report);
      assert Keys(report)[k] == report[k].name;
    }
  }

  // ---------------------------------------------------------------------
  // The whole operation (lines 30-81)
  // ---------------------------------------------------------------------

  /** `CustomException(e, sys)` raised at line 81 around whatever was caught. */
  datatype TrainerError = CustomException(cause: Cause)

  /** What `save_object` wrote: the object and the path it went to. */
  datatype SavedObject = SavedObject(path: string, obj: Regressor)

  /** One run: the object saved, if any, and the returned score or the raised error. */
  datatype Run = Run(saved: Option<SavedObject>, result: Result<Score, TrainerError>)

  /** `evaluate_models(X_train, y_train, X_test, y_test, models)`: the report. */
  type Evaluator = (Array2, seq<real>, Array2, seq<real>, seq<Candidate>) -> Report

  /** `r2_score(y_test, model.predict(X_test))` for the model as `evaluate_models` fitted it. */
  type Scorer = (Regressor, Array2, seq<real>) -> Score

  /**
   * Lines 57-77 once the report is known: select, then save the selection
   * and return the test score of the very object saved. Every failure is
   * raised before the save.
   */
  function SelectAndSave(report: Report, models: seq<Candidate>, xTest: Array2, yTest: seq<real>,
                         scoreOnTest: Scorer): (run: Run)
    ensures run.saved.Some? <==> run.result.Ok?
    ensures run.saved.Some? ==>
      && run.saved.value.path == TrainedModelPath
      && exists name :: Candidate(name, run.saved.value.obj) in models
    ensures run.result.Ok? ==> run.result.value == scoreOnTest(run.saved.value.obj, xTest, yTest)
  {
    match SelectBestModel(report, models)
    case Err(cause) => Run(None, Err(CustomException(cause)))
    case Ok(sel) =>
      Run(Some(SavedObject(TrainedModelPath, sel.model)), Ok(scoreOnTest(sel.model, xTest, yTest)))
  }

  /** `initiate_model_training(train_array, test_array)`. */
  function InitiateModelTraining(train: Array2, test: Array2, evaluateModels: Evaluator,
                                 scoreOnTest: Scorer): (run: Run)
    requires WellShaped(train) && WellShaped(test)
    ensures train.width == 0 || test.width == 0 ==>
      run == Run(None, Err(CustomException(IndexError)))
    ensures run.saved.Some? <==> run.result.Ok?
    ensures run.saved.Some? ==>
      && run.saved.value.path == TrainedModelPath
      && exists i :: 0 <= i < |Models()| && Models()[i].model == run.saved.value.obj
  {
    match SplitFeaturesTarget(train)
    case Err(cause) => Run(None, Err(CustomException(cause)))
    case Ok(trainXY) =>
      match SplitFeaturesTarget(test)
      case Err(cause) => Run(None, Err(CustomException(cause)))
      case Ok(testXY) =>
        var (xTrain, yTrain) := trainXY;
        var (xTest, yTest) := testXY;
        var models := Models();
        var report := evaluateModels(xTrain, yTrain, xTest, yTest, models);
        SelectAndSave(report, models, xTest, yTest, scoreOnTest)
  }

  // ---------------------------------------------------------------------
  // Properties of a run
  // ---------------------------------------------------------------------

  /** Below the threshold the run fails and nothing is saved. */
  lemma GateBeforeSave(report: Report, models: seq<Candidate>, xTest: Array2, yTest: seq<real>,
                       scoreOnTest: Scorer)
    requires |report| > 0 && Max(Values(report)) < AcceptanceThreshold
    ensures SelectAndSave(report, models, xTest, yTest, scoreOnTest) ==
            Run(None, Err(CustomException(TypeError)))
  {
  }

  /**
   * On success the saved object is the roster entry under the selected
   * name, the name is the first in report order carrying the best score,
   * and that is the only object saved.
   */
  lemma SavedIsFirstBest(report: Report, xTest: Array2, yTest: seq<real>, scoreOnTest: Scorer)
    requires SelectBestModel(report, Models()).Ok?
    ensures SelectAndSave(report, Models(), xTest, yTest, scoreOnTest).result.Ok?
    ensures var sel := SelectBestModel(report, Models()).value;
            var run := SelectAndSave(report, Models(), xTest, yTest, scoreOnTest);
            && run.saved == Some(SavedObject(TrainedModelPath, sel.model))
            && Candidate(sel.name, sel.model) in Models()
            && sel.index == BestModelIndex(report)
            && report[sel.index].name == sel.name
  {
  }

  /**
   * Each report entry names a roster model and carries `scoreOnTest` of
   * that model, in whatever order the entries come.
   */
  predicate ScoresAgree(report: Report, models: seq<Candidate>, scoreOnTest: Scorer,
                        xTest: Array2, yTest: seq<real>)
  {
    forall i :: 0 <= i < |report| ==>
      && LookupModel(models, report[i].name).Some?
      && report[i].score == scoreOnTest(LookupModel(models, report[i].name).value, xTest, yTest)
  }

  /**
   * When every report score is the scorer's value for the roster model
   * under its name, the run succeeds exactly when the best score reaches
   * the threshold, and the score it returns is that best score.
   */
  lemma ReturnedScoreIsSelectedBest(report: Report, models: seq<Candidate>, xTest: Array2,
                                    yTest: seq<real>, scoreOnTest: Scorer)
    requires |report| > 0 && ScoresAgree(report, models, scoreOnTest, xTest, yTest)
    ensures var run := SelectAndSave(report, models, xTest, yTest, scoreOnTest);
            && (run.result.Ok? <==> Max(Values(report)) >= AcceptanceThreshold)
            && (run.result.Ok? ==> run.result.value == Max(Values(report)) >= AcceptanceThreshold)
  {
    SelectBestModelKeyError(report, models);
    var r := SelectBestModel(report, models);
    if r.Ok? {
      var sel := r.value;
      assert report[sel.index] == Entry(sel.name, sel.bestScore);
      assert LookupModel(models, report[sel.index].name) == Some(sel.model);
    }
  }

  /** The report holds, in roster order, each candidate's score from `scoreOnTest`. */
  predicate ReportAgrees(report: Report, models: seq<Candidate>, scoreOnTest: Scorer,
                         xTest: Array2, yTest: seq<real>)
  {
    && |report| == |models|
    && forall i :: 0 <= i < |models| ==>
         report[i] == Entry(models[i].name, scoreOnTest(models[i].model, xTest, yTest))
  }

  /**
   * In particular when the report lists the roster in order with the
   * scorer's values, as `evaluate_models` is meant to return it.
   */
  lemma ReturnedScoreIsBest(report: Report, xTest: Array2, yTest: seq<real>, scoreOnTest: Scorer)
    requires ReportAgrees(report, Models(), scoreOnTest, xTest, yTest)
    ensures |report| > 0
    ensures var run := SelectAndSave(report, Models(), xTest, yTest, scoreOnTest);
            && (run.result.Ok? <==> Max(Values(report)) >= AcceptanceThreshold)
            && (run.result.Ok? ==> run.result.value == Max(Values(report)) >= AcceptanceThreshold)
  {
    var models := Models();
    forall i | 0 <= i < |report|
      ensures LookupModel(models, report[i].name) == Some(models[i].model)
    {
      LookupDistinct(models, i);
    }
    ReturnedScoreIsSelectedBest(report, models, xTest, yTest, scoreOnTest);
  }

  /**
   * With both arrays split, the operation is `SelectAndSave` on the report
   * `evaluate_models` returns for this run's split, so GateBeforeSave,
   * SavedIsFirstBest and ReturnedScoreIsBest apply to the whole operation.
   */
  lemma TrainingIsSelectAndSave(train: Array2, test: Array2, evaluateModels: Evaluator,
                                scoreOnTest: Scorer)
    requires WellShaped(train) && WellShaped(test) && train.width > 0 && test.width > 0
    ensures var (xTrain, yTrain) := SplitFeaturesTarget(train).value;
            var (xTest, yTest) := SplitFeaturesTarget(test).value;
            var report := evaluateModels(xTrain, yTrain, xTest, yTest, Models());
            InitiateModelTraining(train, test, evaluateModels, scoreOnTest) ==
            SelectAndSave(report, Models(), xTest, yTest, scoreOnTest)
  {
  }

  /**
   * The same for the whole operation, when the report `evaluate_models`
   * returns for this run's split holds the scores of lines 74-75.
   */
  lemma RunReturnsBestScore(train: Array2, test: Array2, evaluateModels: Evaluator, scoreOnTest: Scorer)
    requires WellShaped(train) && WellShaped(test) && train.width > 0 && test.width > 0
    requires var (xTrain, yTrain) := SplitFeaturesTarget(train).value;
             var (xTest, yTest) := SplitFeaturesTarget(test).value;
             ReportAgrees(evaluateModels(xTrain, yTrain, xTest, yTest, Models()), Models(),
                          scoreOnTest, xTest, yTest)
    ensures var (xTrain, yTrain) := SplitFeaturesTarget(train).value;
            var (xTest, yTest) := SplitFeaturesTarget(test).value;
            var report := evaluateModels(xTrain, yTrain, xTest, yTest, Models());
            var run := InitiateModelTraining(train, test, evaluateModels, scoreOnTest);
            && (run.result.Ok? <==> Max(Values(report)) >= AcceptanceThreshold)
            && (run.result.Ok? ==> run.result.value == Max(Values(report)) >= AcceptanceThreshold)
  {
    var (xTrain, yTrain) := SplitFeaturesTarget(train).value;
    var (xTest, yTest) := SplitFeaturesTarget(test).value;
    var report := evaluateModels(xTrain, yTrain, xTest, yTest, Models());
    TrainingIsSelectAndSave(train, test, evaluateModels, scoreOnTest);
    ReturnedScoreIsBest(report, xTest, yTest, scoreOnTest);
  }
}
