# ml_e2e: best-model selection and requirements parsing, in Dafny

ml_e2e is a small pipeline that trains regressors on student records. It
fits a fixed roster of seven regressors, keeps the best one by held-out
score, and persists it. Most of the repository hands its work to pandas,
scikit-learn, CatBoost and XGBoost. This project models the two pieces that
hold their own logic and proves properties of them.

- `ModelTrainer` (`src/components/model_trainer.py`,
  `initiate_model_training`): the split of each combined array into features
  and target column, the roster of candidates, `max(sorted(...))` over the
  score report, the 0.6 threshold gate, the first-occurrence name lookup, the
  dictionary lookup of the winning model, and which object is saved. Scores
  are `real`, because the rule only compares them. `evaluate_models` and
  `r2_score(y_test, model.predict(X_test))` are function parameters
  (`Evaluator`, `Scorer`). Saving is a returned `SavedObject` value.
- `Requirements` (`setup.py`, `get_requirements`): newline removal on every
  line returned by `readlines()`, then removal of the first `-e .` entry.
  Removal is a method over a sequence (`PyList.Remove`), specified by the
  function `PyList.RemoveFirst`.
- `PyList`: the semantics of Python's `list.index` and `list.remove`. Both
  raise `ValueError` when the value is absent; here that is `None`.
- `Wrappers`: `Option` and `Result`.

Every exception raised inside the `try` of `initiate_model_training` is
re-raised by line 81 as `CustomException(e, sys)`. The model gives it as
`CustomException(cause)`, where `cause` is one of the following.
`IndexError`: an array has no column. `ValueError`: the report is empty.
`TypeError`: the threshold gate fails. `KeyError`: the chosen name is not in
the roster.

Three facts about the source shape the model:
- Line 60 passes one argument to `CustomException`, whose constructor
  (`src/exception.py:21`) needs two. So the threshold gate raises a
  `TypeError`, which line 81 wraps. The model's cause is `TypeError`.
- Line 64 breaks ties in report order
  (`list(model_report.values()).index(...)`). That is roster order when
  `evaluate_models` reports the roster in order (`ReportAgrees`).
- `data_transformation.py:102-103` calls `fit_transform` on the test
  features as well as on the training features. That file is not part of
  this model. Only its column layout is used: the target is appended as the
  last column (lines 108-109).

## Model

| member | source | states |
|---|---|---|
| `PyList.IndexOf` | src/components/model_trainer.py:64 | `list.index`: `None` (ValueError) exactly when the value is absent; otherwise a position holding it, with no earlier position holding it |
| `PyList.RemoveFirst` | setup.py:17 | `list.remove`: fails exactly when the value is absent; otherwise the result is one entry shorter |
| `PyList.RemoveFirstMultiset` | setup.py:17 | removal takes out exactly one copy of the value and keeps every other entry |
| `PyList.RemoveFirstIsSplice` | setup.py:17 | removal is the input with the position found by `list.index` spliced out |
| `PyList.RemoveFirstAt` | setup.py:17 | entries before the first occurrence keep their positions, later ones move up by one, so the order is kept |
| `PyList.LaterOccurrencesRemain` | setup.py:17 | an occurrence after the first one is still present after removal |
| `PyList.Remove` | setup.py:17 | the scanning removal method returns exactly `RemoveFirst` (the loop invariant: no earlier match) |
| `Requirements.StripNewlines` | setup.py:14 | `replace("\n", "")`: no newline is left, the multiset of other characters is unchanged, and a line without a newline is returned as is |
| `Requirements.StripNewlinesAppend` | setup.py:14 | stripping distributes over concatenation, so the kept characters stay in order |
| `Requirements.StripLines` | setup.py:14 | the list comprehension: the same length as the input, and entry i is line i stripped |
| `Requirements.RequirementsOf` | setup.py:11-19 | no returned entry contains a newline |
| `Requirements.GetRequirements` | setup.py:7-19 | the method (strip, then the guarded `remove`) returns exactly `RequirementsOf` |
| `Requirements.MarkerPresent` | setup.py:14-17 | with `-e .` present, the output is one shorter; the first `-e .` (position k) is gone; entries before k are the stripped lines at the same position, entries from k on are the stripped lines one further |
| `Requirements.MarkerRemovedOnce` | setup.py:16-17 | with `-e .` present, the output is the stripped lines less one copy of `-e .`, so later copies remain |
| `Requirements.MarkerAbsent` | setup.py:14-17 | without `-e .`, the output equals the stripped lines, with the input's length |
| `Requirements.NothingElseDropped` | setup.py:13-17 | every stripped line other than `-e .` appears in the output |
| `Requirements.BlankLinesSurvive` | setup.py:13-14 | a blank line `"\n"` is returned as the empty string |
| `ModelTrainer.SplitFeaturesTarget` | src/components/model_trainer.py:35-40 | IndexError exactly when the array has no column; otherwise the features are width−1 wide, the row count is unchanged, and each row is its features followed by its target |
| `ModelTrainer.AppendTargetColumn` | src/components/data_transformation.py:108-109 | `np.c_`: ValueError exactly when the row counts differ; otherwise each new row is the feature row followed by the target value |
| `ModelTrainer.SplitAfterAppend` | src/components/model_trainer.py:35-40 | splitting an array made by appending a target column gives back exactly the features and the target |
| `ModelTrainer.AppendAfterSplit` | src/components/data_transformation.py:108-109 | appending the split-off target back onto the features rebuilds the array |
| `ModelTrainer.Models` | src/components/model_trainer.py:42-50 | the roster has seven entries, with pairwise distinct names and distinct models, and KNeighbors is not among them |
| `ModelTrainer.LookupModel` | src/components/model_trainer.py:66 | `models[name]`: a KeyError exactly when no entry has the name; otherwise a roster entry under that name |
| `ModelTrainer.LookupDistinct` | src/components/model_trainer.py:42-50 | with unique names, looking up an entry's name gives that entry's model |
| `ModelTrainer.Keys` | src/components/model_trainer.py:64 | `list(model_report.keys())`: the report's names in report order (the contract restates the comprehension) |
| `ModelTrainer.Values` | src/components/model_trainer.py:57-64 | `list(model_report.values())`: the report's scores in report order (the contract restates the comprehension) |
| `ModelTrainer.Sort` | src/components/model_trainer.py:57 | `sorted`: ascending, with the input's length |
| `ModelTrainer.SortMultiset` | src/components/model_trainer.py:57 | `sorted` is a permutation of its input |
| `ModelTrainer.Max` | src/components/model_trainer.py:57 | `max`: a member of the sequence that no member exceeds |
| `ModelTrainer.MaxOfSorted` | src/components/model_trainer.py:57 | sorting first does not change the maximum |
| `ModelTrainer.BestModelScore` | src/components/model_trainer.py:57 | ValueError exactly when the report is empty; otherwise one of the report's scores that is at least every score in it |
| `ModelTrainer.BestModelIndex` | src/components/model_trainer.py:64 | the first report position holding the best score; every earlier score is strictly smaller |
| `ModelTrainer.SelectBestModel` | src/components/model_trainer.py:57-66 | an empty report gives ValueError; a best score below 0.6 gives TypeError; on success the selection is the first report entry with the maximal score, is at least 0.6, and names the roster model under it |
| `ModelTrainer.SelectBestModelKeyError` | src/components/model_trainer.py:64-66 | once the best score is at least 0.6, the selection fails with KeyError exactly when the selected name (the first report name with the best score) is missing from the roster, and the error carries that name; otherwise it succeeds |
| `ModelTrainer.SelectAndSave` | src/components/model_trainer.py:57-77 | something is saved exactly when the run succeeds, at `artifacts/model.pkl`, and it is a roster model; the returned score is the scorer's test score of that same saved object |
| `ModelTrainer.InitiateModelTraining` | src/components/model_trainer.py:30-81 | an array without columns fails with IndexError and saves nothing; a save happens exactly on success, at the model path, and the saved object is one of the seven candidates |
| `ModelTrainer.GateBeforeSave` | src/components/model_trainer.py:59-72 | a best score below 0.6 ends the run in the TypeError-caused CustomException, with nothing saved |
| `ModelTrainer.SavedIsFirstBest` | src/components/model_trainer.py:64-72 | on success the only saved object is the roster model under the selected name, and that name is at the first report position with the best score |
| `ModelTrainer.ReturnedScoreIsSelectedBest` | src/components/model_trainer.py:57-77 | if every report score is the scorer's value for the roster model under that entry's name, in any order, the run succeeds exactly when the best score is at least 0.6, and it returns that best score |
| `ModelTrainer.ReturnedScoreIsBest` | src/components/model_trainer.py:57-77 | if the report holds the scorer's values in roster order, the run succeeds exactly when the best score is at least 0.6, and it returns that best score |
| `ModelTrainer.TrainingIsSelectAndSave` | src/components/model_trainer.py:30-77 | once both arrays split, the operation is the selection and save applied to the report `evaluate_models` returns for this run's split |
| `ModelTrainer.RunReturnsBestScore` | src/components/model_trainer.py:30-77 | if the report for this run's split holds the scorer's values in roster order, the operation succeeds exactly when the best score is at least 0.6, and it returns `best_model_score` |

## Left out

- Model fitting, prediction and the R² metric (CatBoost, XGBoost,
  scikit-learn). `evaluate_models` and `save_object` live in `src/utils`,
  which is not part of this model. Evaluation and scoring are function
  parameters, and saving is the returned `SavedObject`. The saved object is
  the candidate's untrained configuration (`Regressor`). The parameters
  that `evaluate_models` fits into that object in place are not modelled.
- Exceptions raised inside `evaluate_models`, `predict`, `r2_score` or
  `save_object`. These functions are total here, so such failures, including
  a failure after the save, are not modelled.
- Floating-point scores, including NaN, which would make `max` and
  `index` behave differently. Scores are `real`.
- Arrays that are not two-dimensional, and numpy's broadcasting. Arrays are
  `Array2` values whose rows all have the declared width (`WellShaped`).
- ModelTrainer.InitiateModelTraining: an error in either split is an
  IndexError. The model does not say which of the two slicings raised it.
- Logging calls, the text of `CustomException` messages
  (`src/exception.py`), and `src/logger.py`: these are I/O and string
  formatting only.
- On Windows, `os.path.join` would use a backslash. The model path is the
  POSIX `artifacts/model.pkl`.
- `data_transformation.py`, apart from the column layout of `np.c_`
  (`AppendTargetColumn`). Its transformer construction, fitting, CSV
  reading and pickling are library calls.
- In `setup.py`: opening the file, `readlines` (whose result `lines`
  stands for), and the `setup(...)` packaging call.
- `requirements.remove` mutates a local list that nothing else refers to.
  It is modelled as a method that returns the new sequence.
