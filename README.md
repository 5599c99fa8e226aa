# Scientific-text classifier API: label handling, prediction post-processing and file download guard

This project models the deterministic core of a FastAPI service that classifies
scientific texts (title plus abstract) into medical categories. A label of the
model is either a single category or several categories joined by `|`
(`"cardiovascular|neurological"`). The label file is a JSON array that may hold
`null` and the placeholder `"NaN"`. The model covers:

- `MLUtils` (`api/core/utils.py`): parsing a multilabel string, cleaning a label
  list, the `None` filter of `load_labels`, and `get_unique_categories`, which
  builds a set of categories in a loop and returns it sorted (module `Labels`,
  with Python's string order in module `StringOrder`).
- `MLModelService` (`api/services/ml_service.py`), as a class whose fields are
  the loaded tokenizer, model and label array (module `MlService`):
  - loading, which keeps every JSON entry at its original index;
  - `is_model_loaded` and `get_available_classes`;
  - prediction after the forward pass: arg-max of the logits, mapping of a
    placeholder label to `"unknown"`, and the per-category sum of
    probabilities over every label that contains the category;
  - the simulated class distribution (fixed counts by sorted rank).
- The threshold selection of the stand-alone script `main.py` (module
  `ThresholdSelection`): classes whose probability is strictly above the
  threshold, in order, with no fallback.
- The field constraints of `PredictionRequest` and `PredictionResponse`
  (`api/models/schemas.py`, module `Schemas`).
- `download_processed_file` (`api/controllers/files_controller.py`, module
  `Files`): the temporary directory is a map from file name to the time `os.path.getctime`
  reports for it,
  and the current time is a parameter.

Errors that the Python code raises (an `IndexError` from numpy, an attribute
error on a missing label array, a pydantic validation error) are modelled as
`Failure`/`None` results of a `Result` or `Option` type.

Where the schema's description and the code disagree, the model follows the
code. The `threshold` field describes the selection as "probability >=
threshold", but `main.py:47` keeps a class only when its probability is strictly
greater; `ThresholdSelection.Select` uses `>`.

## Model

| member | source | states |
|---|---|---|
| StringOrder.LessIrreflexive | api/core/utils.py:38 | no string sorts strictly before itself |
| StringOrder.LessTransitive | api/core/utils.py:38 | the code-point order of `sorted` is transitive |
| StringOrder.LessTotal | api/core/utils.py:38 | any two different strings are ordered one way or the other |
| StringOrder.LessAsymmetric | api/core/utils.py:38 | two strings are never each before the other |
| StringOrder.Insert | api/core/utils.py:38 | inserting a new string into a strictly ascending list keeps it strictly ascending, adds exactly that string and grows the list by one |
| StringOrder.AscendingUnique | api/core/utils.py:38 | two strictly ascending lists with the same members are equal, so the sorted list of a set is determined by the set |
| StringOrder.RankOfAscending | api/core/utils.py:38 | the i-th element of a sorted list of distinct strings has exactly i members of the list below it |
| StringOrder.RankIncreasing | api/core/utils.py:38 | a member of the set that sorts before another string has a smaller rank |
| Labels.Split | api/core/utils.py:29 | `str.split` on the bar separator yields one more piece than there are separators, and no piece contains a separator |
| Labels.JoinSplit | api/core/utils.py:29 | joining the pieces of a split with the bar separator gives back the string |
| Labels.SplitJoin | api/core/utils.py:29 | splitting a bar-join of separator-free pieces gives back the pieces, empty pieces included |
| Labels.ParseMultilabel | api/core/utils.py:25-29 | the result is empty exactly for `""` and `"NaN"`; otherwise its pieces join back to the label and number one more than the separators |
| Labels.ParseMultilabelInverse | api/core/utils.py:25-29 | a non-empty list of separator-free categories that does not join to `""` or `"NaN"` is recovered by parsing its join |
| Labels.Filter | api/core/utils.py:17 | a list comprehension with a condition keeps exactly the entries that pass it, each as often as in the input |
| Labels.FilterConcat | api/core/utils.py:22 | filtering keeps the input order: filtering a concatenation is the concatenation of the filtered parts |
| Labels.FilterIdempotent | api/core/utils.py:22 | filtering twice with the same condition is filtering once |
| Labels.CleanLabels | api/core/utils.py:20-22 | the result holds exactly the entries that are neither null nor `"NaN"`, with their multiplicities |
| Labels.CleanLabelsIdempotent | api/core/utils.py:20-22 | cleaning a cleaned list changes nothing |
| Labels.CleanLabelsOrder | api/core/utils.py:20-22 | cleaning keeps the order of the entries |
| Labels.LoadLabels | api/core/utils.py:13-17 | only null entries are dropped: `"NaN"` and every string survive with their multiplicities |
| Labels.LoadLabelsOrder | api/core/utils.py:17 | the null filter keeps the order of the entries |
| Labels.CategoriesMembership | api/core/utils.py:34-37 | a string is a collected category exactly when some non-empty, non-`"NaN"` string label has it among its bar-separated pieces |
| Labels.CategoriesDependOnSetOnly | api/core/utils.py:32-38 | two label lists with the same members yield the same categories |
| Labels.UniqueCategoriesDeterministic | api/core/utils.py:32-38 | the unique-categories result of a label list is uniquely determined by its member set |
| Labels.SortedList | api/core/utils.py:38 | `sorted(list(categories))`: a strictly ascending list with exactly the members of the set |
| Labels.GetUniqueCategories | api/core/utils.py:32-38 | the result is strictly ascending, with no duplicates, and holds exactly the categories of the valid labels |
| ThresholdSelection.Select | main.py:47 | the selection is no longer than the class list or the probability vector |
| ThresholdSelection.Predict | main.py:28-48 | returns the probability vector unchanged, and selects nothing exactly when no paired probability exceeds the threshold (default 0.5) |
| ThresholdSelection.SelectEmptyIff | main.py:47 | the selection is empty exactly when every paired probability is at most the threshold |
| ThresholdSelection.SelectMembership | main.py:47 | a class is selected exactly when it sits at some paired index whose probability is strictly above the threshold |
| ThresholdSelection.SelectConcat | main.py:47 | selection over concatenated inputs of matching lengths is the concatenation of the selections |
| ThresholdSelection.SelectAt | main.py:47 | the class at index i appears in the selection, between the selections before and after it, exactly when its probability exceeds the threshold |
| ThresholdSelection.SelectIsSubsequence | main.py:47 | the selection keeps the classes in their original order |
| ThresholdSelection.SelectMonotone | main.py:47 | raising the threshold selects a subsequence of what the lower threshold selects |
| Schemas.ParseRequest | api/models/schemas.py:8-21 | a request is accepted exactly when `text` is given with 10 to 5000 characters and any given `threshold` lies in [0, 1]; a left-out threshold becomes 0.5 and `null` stays empty; a short text is reported as too short |
| Schemas.MakeResponse | api/models/schemas.py:31-36 | a response is built exactly when all four fields are given and the confidence lies in [0, 1]; its fields are the given values |
| MlService.ArgMax | api/services/ml_service.py:72 | `torch.argmax`: the index holds a maximal logit and no earlier index holds one as large |
| MlService.AvailableLabels | api/services/ml_service.py:86 | keeps exactly the string labels other than `"nan"`, with their multiplicities; `"NaN"` survives |
| MlService.AvailableLabelsOrder | api/services/ml_service.py:142 | the availability filter keeps the order of the labels |
| MlService.CategoryKeys | api/services/ml_service.py:85-87 | a string is a category of the available labels exactly when some label contributes to it |
| MlService.CategoryProbabilitiesKeys | api/services/ml_service.py:84-94 | the probability dictionary has a key exactly for each category some available label contains |
| MlService.MassCoversContribution | api/services/ml_service.py:89-93 | with non-negative probabilities, a category's sum is at least the probability of every label that contains it |
| MlService.MassNonNegative | api/services/ml_service.py:89-93 | with non-negative probabilities, every category sum is non-negative |
| MlService.SumFor | api/services/ml_service.py:89-94 | the loop over labels fails exactly when a contributing label has no probability, and otherwise returns the category's sum |
| MlService.MissingForSomeCategory | api/services/ml_service.py:89-93 | an out-of-range contributing label makes the loop fail for at least one category |
| MlService.SumEach | api/services/ml_service.py:89-94 | summing over a list of categories fails exactly when one of them fails, and otherwise maps each listed category to its sum |
| MlService.SumByCategory | api/services/ml_service.py:84-94 | the per-category dictionary is the category sums over the available labels, or an index error exactly when a contributing label lies beyond the probability vector |
| MlService.DistributionPositive | api/services/ml_service.py:123-130 | every simulated count is positive |
| MlService.CountAtNonIncreasing | api/services/ml_service.py:124-130 | the count of a later rank is never larger than that of an earlier one |
| MlService.DistributionNonIncreasing | api/services/ml_service.py:118-132 | a category that sorts before another never gets a smaller count |
| MlService.DistributionAtSorted | api/services/ml_service.py:126-130 | the i-th sorted category gets `base_counts[i]` for i below 10 and 10 afterwards |
| MlService.DistributionOfSorted | api/services/ml_service.py:126-130 | a dictionary filled by sorted position equals the rank-based distribution |
| MlService.CountEach | api/services/ml_service.py:123-132 | the loop gives each listed category the count of its position, and no other key |
| StringOrder.AscendingDistinct | api/core/utils.py:38 | a strictly ascending list has no duplicates |
| MlService.MLModelService.constructor | api/services/ml_service.py:21-25 | the field initialisation of `__init__`, before `_load_model` runs: no model, no tokenizer and no labels |
| MlService.MLModelService.Create | api/services/ml_service.py:21-26 | constructing the service succeeds exactly when tokenizer, model and label file all load, and then yields a new, loaded service holding every JSON entry; any load failure propagates, so no half-loaded service is returned |
| MlService.MLModelService.IsModelLoaded | api/services/ml_service.py:134-136 | true exactly when both the model and the tokenizer are loaded |
| MlService.MLModelService.LoadModel | api/services/ml_service.py:28-51 | loading succeeds exactly when tokenizer, model and label file all load; each is set in order up to the first failure, and on success the labels are every JSON entry in file order |
| MlService.MLModelService.AvailableClasses | api/services/ml_service.py:138-142 | empty before loading, else the available labels, none of which is null or `"nan"` |
| MlService.MLModelService.Predict | api/services/ml_service.py:53-101 | every error comes in the source's order: not loaded, empty output, no labels, arg-max past the labels, a contributing label with no probability (the `IndexError` of the summing loop), then a confidence the response schema refuses; success exactly when loaded, the arg-max has a label, every contributing label has a probability and the confidence lies in [0, 1]; a placeholder label becomes `"unknown"` with categories `["unknown"]`, other labels are parsed; the dictionary is the category sums |
| MlService.MLModelService.GetClassDistribution | api/services/ml_service.py:118-132 | none without labels, else each category of the raw label array gets the count of its sorted rank |
| Files.Classify | api/controllers/files_controller.py:28-53 | the guard chain: an invalid name is rejected first, then a missing file, then a file older than 3600 seconds expires, and anything else is served |
| Files.RejectionIgnoresDirectory | api/controllers/files_controller.py:28-32 | a rejected name is rejected whatever the directory holds and whatever the time |
| Files.TraversalRejected | api/controllers/files_controller.py:28 | a ".csv" name with a '/' or a ".." is rejected |
| Files.ExpiryBoundary | api/controllers/files_controller.py:47 | a file exactly 3600 seconds old is served and one 3601 seconds old has expired |
| Files.TempDirectory.Download | api/controllers/files_controller.py:18-67 | 400 on a bad name and 404 on a missing file, directory unchanged; an expired file is deleted and answered 404, or 500 with the directory unchanged when the deletion fails; a fresh file is served as `text/csv` and nothing changes |

## Left out

- The forward pass, tokenizer, softmax, sigmoid and device selection are not modelled; `Predict` takes the logits and their probabilities as parameters, and `ThresholdSelection.Predict` takes the probability vector.
- Reading `label_encoder.json`, `config.get_model_path()` and the transformer loaders are I/O; `LoadModel` takes whether each loader succeeds and the parsed array as parameters.
- JSON entries that are neither `null` nor strings (numbers, a float NaN whose `str` is `"nan"`) are not modelled; a label is `null` or a string.
- numpy's conversion of the label array (`np.array`, `tolist`) is taken as keeping each entry unchanged.
- MlService.MLModelService.Predict: `round(…, 4)` of the confidence and of each category sum is not modelled; the response holds the exact values, and the confidence check is made on the unrounded value.
- Real numbers stand for Python floats: the sums are exact, without floating-point rounding.
- `MultiLabelBinarizer` setup in `main.py` is not modelled; the class list is a parameter.
- `get_model_metrics`, `MetricsCalculator`, `analytics_service` and the other controllers are not part of this model. The prediction controller calls `predict` with a threshold that `MLModelService.predict` does not accept; that call is not modelled.
- Files.TempDirectory.Download: of the failures that become a 500, only a failing deletion of an expired file is modelled; a `getctime` failure or a file that disappears between the checks is not. The 500 detail omits the exception text.
- The `FileResponse` is modelled by its name and media type; streaming the file is not.
- Logging is left out.
- MlService.MLModelService.Predict: the `NotLoaded` and `NoLabels` failures cannot arise on a service obtained from `Create`; they are reachable only through the bare field initialisation or a later failed reload, which the source does not guard against either.
