/**
 * The prediction service (`MLModelService` in api/services/ml_service.py).
 *
 * The tokenizer and the model are opaque: the service only records whether
 * each was loaded, and `Predict` receives the row of logits the model
 * produced for the text and the softmax probabilities of that row. What the
 * service does with them is modelled: the arg-max, the mapping of a
 * placeholder label to "unknown", the split of a composite label into
 * categories and the per-category sum of probabilities.
 */
module MlService {
  import opened Wrappers
  import opened StringOrder
  import opened Labels
  import Schemas

  /** The class and category reported when the arg-max lands on a placeholder entry. */
  const Unknown: string := "unknown"

  /** The simulated counts `get_class_distribution` gives its first ten keys, in key order. */
  const BaseCounts: seq<int> := [150, 120, 95, 80, 65, 45, 30, 25, 20, 15]

  /** The simulated count of every key after the tenth. */
  const LaterCount: int := 10

  /** Why `predict` raises instead of returning a response. */
  datatype PredictError =
    | NotLoaded                   // the tokenizer or the model is None, so calling it fails
    | EmptyOutput                 // arg-max over an empty row of logits
    | NoLabels                    // `labels` is None, so indexing it fails
    | LabelIndexOutOfRange        // the arg-max index is past the end of `labels`
    | ProbabilityIndexOutOfRange  // a contributing label has no probability at its index
    | InvalidResponse             // the response schema refuses the confidence

  /** `torch.argmax` of one row: the first index holding the largest value. */
  function ArgMax(xs: seq<real>): (k: nat)
    requires |xs| > 0
    ensures k < |xs|
    ensures forall j :: 0 <= j < |xs| ==> xs[j] <= xs[k]
    ensures forall j :: 0 <= j < k ==> xs[j] < xs[k]
  {
    if |xs| == 1 then 0
    else
      var k := ArgMax(xs[..|xs| - 1]);
      if xs[|xs| - 1] > xs[k] then |xs| - 1 else k
  }

  /** Entries `predict` reports as "unknown": None, "NaN" or "nan". */
  predicate IsPlaceholder(l: Label)
  {
    l.Null? || l.text == Placeholder || l.text == "nan"
  }

  /** Entries kept by `label is not None and str(label) != 'nan'`; the string "NaN" is kept. */
  predicate IsAvailable(l: Label)
  {
    l.Str? && l.text != "nan"
  }

  /** The comprehension `[label for label in labels if label is not None and str(label) != 'nan']`. */
  function AvailableLabels(labels: seq<Label>): (r: seq<Label>)
    ensures forall l :: l in r <==> l in labels && l.Str? && l.text != "nan"
    ensures Str(Placeholder) in labels ==> Str(Placeholder) in r
    ensures forall l :: multiset(r)[l] == if IsAvailable(l) then multiset(labels)[l] else 0
  {
    Filter(labels, IsAvailable)
  }

  /** The available labels keep their original order. */
  lemma AvailableLabelsOrder(a: seq<Label>, b: seq<Label>)
    ensures AvailableLabels(a + b) == AvailableLabels(a) + AvailableLabels(b)
  {
    FilterConcat(a, b, IsAvailable);
  }

  /** Entry `l` adds its probability to category `c`. */
  predicate Contributes(l: Label, c: string)
  {
    IsAvailable(l) && c in ParseMultilabel(l.text)
  }

  /**
   * Sum of the probabilities at the indices whose entry contributes to `c`
   * (an index with no probability adds nothing; `Predict` fails on it).
   */
  function Mass(labels: seq<Label>, probs: seq<real>, c: string): real
  {
    if |labels| == 0 then 0.0
    else
      var i := |labels| - 1;
      Mass(labels[..i], probs, c) + (if Contributes(labels[i], c) && i < |probs| then probs[i] else 0.0)
  }

  /** Some entry that contributes to a category has no probability at its index. */
  predicate ProbabilityMissing(labels: seq<Label>, probs: seq<real>)
  {
    exists i :: |probs| <= i < |labels| && IsAvailable(labels[i]) && ParseMultilabel(labels[i].text) != []
  }

  /** The probability map of a response: one key per category of the available labels. */
  function CategoryProbabilities(labels: seq<Label>, probs: seq<real>): map<string, real>
  {
    map c | c in Categories(AvailableLabels(labels)) :: Mass(labels, probs, c)
  }

  /** A category of the available labels is exactly a category some entry contributes to. */
  lemma CategoryKeys(labels: seq<Label>, c: string)
    ensures c in Categories(AvailableLabels(labels)) <==>
      exists i :: 0 <= i < |labels| && Contributes(labels[i], c)
  {
    var avail := AvailableLabels(labels);
    CategoriesMembership(avail, c);
    if c in Categories(avail) {
      var j :| 0 <= j < |avail| && avail[j].Str? && avail[j].text != "" &&
        avail[j].text != Placeholder && c in Split(avail[j].text);
      assert avail[j] in labels;
      var i :| 0 <= i < |labels| && labels[i] == avail[j];
      assert Contributes(labels[i], c);
    }
    if exists i :: 0 <= i < |labels| && Contributes(labels[i], c) {
      var i :| 0 <= i < |labels| && Contributes(labels[i], c);
      assert labels[i] in avail;
      var j :| 0 <= j < |avail| && avail[j] == labels[i];
      assert avail[j].text != "" && avail[j].text != Placeholder && c in Split(avail[j].text);
    }
  }

  /** The keys of the probability map are the categories some available entry splits into. */
  lemma CategoryProbabilitiesKeys(labels: seq<Label>, probs: seq<real>, c: string)
    ensures c in CategoryProbabilities(labels, probs) <==>
      exists i :: 0 <= i < |labels| && Contributes(labels[i], c)
  {
    CategoryKeys(labels, c);
  }

  /** With non-negative probabilities, a category's mass is at least each contribution to it. */
  lemma {:induction false} MassCoversContribution(labels: seq<Label>, probs: seq<real>, c: string, i: nat)
    requires forall j :: 0 <= j < |probs| ==> probs[j] >= 0.0
    requires i < |labels| && i < |probs| && Contributes(labels[i], c)
    ensures Mass(labels, probs, c) >= probs[i]
    decreases |labels|
  {
    var last := |labels| - 1;
    MassNonNegative(labels[..last], probs, c);
    if i < last {
      assert labels[..last][i] == labels[i];
      MassCoversContribution(labels[..last], probs, c, i);
    }
  }

  lemma {:induction false} MassNonNegative(labels: seq<Label>, probs: seq<real>, c: string)
    requires forall j :: 0 <= j < |probs| ==> probs[j] >= 0.0
    ensures Mass(labels, probs, c) >= 0.0
    decreases |labels|
  {
    if |labels| > 0 {
      MassNonNegative(labels[..|labels| - 1], probs, c);
    }
  }

  /** The simulated count for the key of rank `i` in `get_class_distribution`. */
  function CountAt(i: nat): int
  {
    if i < |BaseCounts| then BaseCounts[i] else LaterCount
  }

  /** `get_class_distribution`'s result for the category set `cats`: each key gets the count of its rank. */
  function Distribution(cats: set<string>): map<string, int>
  {
    map k | k in cats :: CountAt(Rank(k, cats))
  }

  /** Every simulated count is positive. */
  lemma DistributionPositive(cats: set<string>, k: string)
    requires k in cats
    ensures Distribution(cats)[k] >= LaterCount > 0
  {
  }

  lemma CountAtNonIncreasing(i: nat, j: nat)
    requires i <= j
    ensures CountAt(i) >= CountAt(j)
  {
    if j < |BaseCounts| {
      assert BaseCounts[0] >= BaseCounts[1] >= BaseCounts[2] >= BaseCounts[3] >= BaseCounts[4] >=
        BaseCounts[5] >= BaseCounts[6] >= BaseCounts[7] >= BaseCounts[8] >= BaseCounts[9];
    }
  }

  /** Counts never increase along the sorted key order. */
  lemma DistributionNonIncreasing(cats: set<string>, k1: string, k2: string)
    requires k1 in cats && k2 in cats && Less(k1, k2)
    ensures Distribution(cats)[k1] >= Distribution(cats)[k2]
  {
    RankIncreasing(cats, k1, k2);
    CountAtNonIncreasing(Rank(k1, cats), Rank(k2, cats));
  }

  /** The i-th key in sorted order gets `base_counts[i]` for i < 10 and 10 after that. */
  lemma DistributionAtSorted(sorted: seq<string>, i: nat)
    requires StrictlyAscending(sorted) && i < |sorted|
    ensures sorted[i] in Distribution(set x | x in sorted)
    ensures Distribution(set x | x in sorted)[sorted[i]] == if i < 10 then BaseCounts[i] else 10
  {
    RankOfAscending(sorted, i);
  }

  /** A map that gives the i-th key of a sorted listing the count of rank i is the distribution of its keys. */
  lemma DistributionOfSorted(sorted: seq<string>, d: map<string, int>)
    requires StrictlyAscending(sorted)
    requires forall c :: c in d <==> c in sorted
    requires forall k :: 0 <= k < |sorted| ==> d[sorted[k]] == CountAt(k)
    ensures d == Distribution(set c | c in sorted)
  {
    var cats := set c | c in sorted;
    forall key | key in d
      ensures d[key] == Distribution(cats)[key]
    {
      var k :| 0 <= k < |sorted| && sorted[k] == key;
      RankOfAscending(sorted, k);
    }
  }

  /** Some entry that contributes to `c` has no probability at its index. */
  predicate MissingFor(labels: seq<Label>, probs: seq<real>, c: string)
  {
    exists i :: |probs| <= i < |labels| && Contributes(labels[i], c)
  }

  /**
   * The inner loop of `predict`: the running `category_prob` over the
   * entries, in order. None stands for the IndexError raised at the first
   * contributing entry that has no probability.
   */
  method SumFor(labels: seq<Label>, probs: seq<real>, category: string) returns (r: Option<real>)
    ensures r.None? <==> MissingFor(labels, probs, category)
    ensures r.Some? ==> r.value == Mass(labels, probs, category)
  {
    var categoryProb := 0.0;
    for i := 0 to |labels|
      invariant categoryProb == Mass(labels[..i], probs, category)
      invariant forall ii :: 0 <= ii < i && Contributes(labels[ii], category) ==> ii < |probs|
    {
      assert labels[..i + 1][..i] == labels[..i];
      if Contributes(labels[i], category) {
        if i >= |probs| {
          return None;
        }
        categoryProb := categoryProb + probs[i];
      }
    }
    assert labels[..|labels|] == labels;
    r := Some(categoryProb);
  }

  /** An entry is missing for some category exactly when a probability is missing. */
  lemma MissingForSomeCategory(labels: seq<Label>, probs: seq<real>)
    ensures ProbabilityMissing(labels, probs) <==>
      exists c :: c in Categories(AvailableLabels(labels)) && MissingFor(labels, probs, c)
  {
    if ProbabilityMissing(labels, probs) {
      var i :| |probs| <= i < |labels| && IsAvailable(labels[i]) && ParseMultilabel(labels[i].text) != [];
      var c := ParseMultilabel(labels[i].text)[0];
      CategoryKeys(labels, c);
      assert MissingFor(labels, probs, c);
    }
    if exists c :: c in Categories(AvailableLabels(labels)) && MissingFor(labels, probs, c) {
      var c :| c in Categories(AvailableLabels(labels)) && MissingFor(labels, probs, c);
      var i :| |probs| <= i < |labels| && Contributes(labels[i], c);
      assert ParseMultilabel(labels[i].text) != [];
    }
  }

  /**
   * The outer loop of `predict` that fills `probs_dict`, one category of
   * `cats` at a time. None stands for the IndexError of the inner loop.
   */
  method SumEach(labels: seq<Label>, probs: seq<real>, cats: seq<string>) returns (r: Option<map<string, real>>)
    ensures r.None? <==> exists k :: 0 <= k < |cats| && MissingFor(labels, probs, cats[k])
    ensures r.Some? ==> forall c :: c in r.value <==> c in cats
    ensures r.Some? ==> forall c :: c in r.value ==> r.value[c] == Mass(labels, probs, c)
  {
    var probsDict: map<string, real> := map[];
    for j := 0 to |cats|
      invariant forall c :: c in probsDict <==> c in cats[..j]
      invariant forall c :: c in probsDict ==> probsDict[c] == Mass(labels, probs, c)
      invariant forall k :: 0 <= k < j ==> !MissingFor(labels, probs, cats[k])
    {
      var sum := SumFor(labels, probs, cats[j]);
      if sum.None? {
        return None;
      }
      assert cats[..j + 1] == cats[..j] + [cats[j]];
      probsDict := probsDict[cats[j] := sum.value];
    }
    assert cats[..|cats|] == cats;
    r := Some(probsDict);
  }

  /** `probs_dict` of `predict`, over the sorted unique categories of the available labels. */
  method SumByCategory(labels: seq<Label>, probs: seq<real>) returns (r: Option<map<string, real>>)
    ensures r.None? <==> ProbabilityMissing(labels, probs)
    ensures r.Some? ==> r.value == CategoryProbabilities(labels, probs)
  {
    var uniqueCategories := GetUniqueCategories(AvailableLabels(labels));
    r := SumEach(labels, probs, uniqueCategories);
    MissingForSomeCategory(labels, probs);
    if r.None? {
      var k :| 0 <= k < |uniqueCategories| && MissingFor(labels, probs, uniqueCategories[k]);
      assert uniqueCategories[k] in Categories(AvailableLabels(labels));
    } else {
      assert r.value == CategoryProbabilities(labels, probs);
    }
  }

  /** `get_class_distribution`'s loop over the sorted categories `cats`. */
  method CountEach(cats: seq<string>) returns (d: map<string, int>)
    requires forall k, m :: 0 <= k < m < |cats| ==> cats[k] != cats[m]
    ensures forall c :: c in d <==> c in cats
    ensures forall k :: 0 <= k < |cats| ==> d[cats[k]] == CountAt(k)
  {
    d := map[];
    for i := 0 to |cats|
      invariant forall c :: c in d <==> c in cats[..i]
      invariant forall k :: 0 <= k < i ==> d[cats[k]] == CountAt(k)
    {
      assert cats[..i + 1] == cats[..i] + [cats[i]];
      if i < |BaseCounts| {
        d := d[cats[i] := BaseCounts[i]];
      } else {
        d := d[cats[i] := LaterCount];
      }
    }
    assert cats[..|cats|] == cats;
  }

  class MLModelService {
    /** `self.model is not None`. */
    var hasModel: bool
    /** `self.tokenizer is not None`. */
    var hasTokenizer: bool
    /** `self.labels`: None until loaded, then every JSON entry in file order. */
    var labels: Option<seq<Label>>

    /** The field initialisation of `__init__`, before `_load_model` runs. */
    constructor ()
      ensures !hasModel && !hasTokenizer && labels == None
    {
      hasModel := false;
      hasTokenizer := false;
      labels := None;
    }

    /** `is_model_loaded`. */
    predicate IsModelLoaded(): (loaded: bool)
      reads this
      ensures loaded <==> hasModel && hasTokenizer
    {
      hasModel && hasTokenizer
    }

    /**
     * `_load_model`: loads the tokenizer, then the model, then the label
     * file, stopping (and raising) at the first artifact that cannot be
     * loaded. The loaders are opaque: `tokenizerFound` and `modelFound` say
     * whether they succeed and `labelFile` is the parsed JSON array, if any.
     */
    method LoadModel(tokenizerFound: bool, modelFound: bool, labelFile: Option<seq<Label>>) returns (ok: bool)
      modifies this
      ensures ok <==> tokenizerFound && modelFound && labelFile.Some?
      ensures hasTokenizer == (tokenizerFound || old(hasTokenizer))
      ensures hasModel == ((tokenizerFound && modelFound) || old(hasModel))
      ensures labels == if ok then labelFile else old(labels)
      ensures ok ==> IsModelLoaded()
    {
      if !tokenizerFound {
        return false;
      }
      hasTokenizer := true;
      if !modelFound {
        return false;
      }
      hasModel := true;
      if labelFile.None? {
        return false;
      }
      labels := labelFile;
      ok := true;
    }

    /**
     * `MLModelService()`: the field initialisation of `__init__` followed by
     * `_load_model`, whose failure propagates out of the constructor, so a
     * service is only obtained with tokenizer, model and labels loaded.
     */
    static method Create(tokenizerFound: bool, modelFound: bool, labelFile: Option<seq<Label>>)
      returns (s: Option<MLModelService>)
      ensures s.Some? <==> tokenizerFound && modelFound && labelFile.Some?
      ensures s.Some? ==> fresh(s.value) && s.value.IsModelLoaded() && s.value.labels == labelFile
    {
      var service := new MLModelService();
      var ok := service.LoadModel(tokenizerFound, modelFound, labelFile);
      if !ok {
        return None;
      }
      s := Some(service);
    }

    /** `get_available_classes`. */
    function AvailableClasses(): (r: seq<Label>)
      reads this
      ensures labels.None? ==> r == []
      ensures labels.Some? ==> r == AvailableLabels(labels.value)
      ensures forall l :: l in r ==> l.Str? && l.text != "nan"
    {
      if labels.None? then [] else AvailableLabels(labels.value)
    }

    /**
     * `predict`, after the forward pass: `logits` is the model's output row
     * for the text and `probabilities` its softmax.
     */
    method Predict(logits: seq<real>, probabilities: seq<real>) returns (r: Result<Schemas.PredictionResponse, PredictError>)
      requires |probabilities| == |logits|
      ensures !IsModelLoaded() ==> r == Failure(NotLoaded)
      ensures IsModelLoaded() && |logits| == 0 ==> r == Failure(EmptyOutput)
      ensures IsModelLoaded() && |logits| > 0 && labels.None? ==> r == Failure(NoLabels)
      ensures IsModelLoaded() && |logits| > 0 && labels.Some? && ArgMax(logits) >= |labels.value| ==>
        r == Failure(LabelIndexOutOfRange)
      ensures (IsModelLoaded() && |logits| > 0 && labels.Some? && ArgMax(logits) < |labels.value|
               && ProbabilityMissing(labels.value, probabilities)) ==>
        r == Failure(ProbabilityIndexOutOfRange)
      ensures (IsModelLoaded() && |logits| > 0 && labels.Some? && ArgMax(logits) < |labels.value|
               && !ProbabilityMissing(labels.value, probabilities)
               && !(0.0 <= probabilities[ArgMax(logits)] <= 1.0)) ==>
        r == Failure(InvalidResponse)
      ensures r.Success? <==>
        && IsModelLoaded() && |logits| > 0 && labels.Some? && ArgMax(logits) < |labels.value|
        && !ProbabilityMissing(labels.value, probabilities)
        && 0.0 <= probabilities[ArgMax(logits)] <= 1.0
      ensures r.Success? ==>
        && labels.Some? && |logits| > 0 && ArgMax(logits) < |labels.value|
        && Schemas.ValidResponse(r.value)
        && r.value.confidence == probabilities[ArgMax(logits)]
        && (IsPlaceholder(labels.value[ArgMax(logits)]) ==>
              r.value.predictedClass == Unknown && r.value.categories == [Unknown])
        && (!IsPlaceholder(labels.value[ArgMax(logits)]) ==>
              && r.value.predictedClass == labels.value[ArgMax(logits)].text
              && r.value.categories == ParseMultilabel(labels.value[ArgMax(logits)].text))
        && r.value.probabilities == CategoryProbabilities(labels.value, probabilities)
    {
      if !hasTokenizer || !hasModel {
        return Failure(NotLoaded);
      }
      if |logits| == 0 {
        return Failure(EmptyOutput);
      }
      var predictedIdx := ArgMax(logits);
      var confidence := probabilities[predictedIdx];
      if labels.None? {
        return Failure(NoLabels);
      }
      var ls := labels.value;
      if predictedIdx >= |ls| {
        return Failure(LabelIndexOutOfRange);
      }
      var predictedClass: string;
      var categories: seq<string>;
      if IsPlaceholder(ls[predictedIdx]) {
        predictedClass := Unknown;
        categories := [Unknown];
      } else {
        predictedClass := ls[predictedIdx].text;
        categories := ParseMultilabel(predictedClass);
      }

      var probsDict := SumByCategory(ls, probabilities);
      if probsDict.None? {
        return Failure(ProbabilityIndexOutOfRange);
      }

      var response := Schemas.MakeResponse(
        Schemas.Given(predictedClass), Schemas.Given(confidence),
        Schemas.Given(probsDict.value), Schemas.Given(categories));
      if response.Failure? {
        return Failure(InvalidResponse);
      }
      r := Success(response.value);
    }

    /** `get_class_distribution`; None stands for the error raised when `labels` is None. */
    method GetClassDistribution() returns (r: Option<map<string, int>>)
      ensures labels.None? ==> r == None
      ensures labels.Some? ==> r == Some(Distribution(Categories(labels.value)))
    {
      if labels.None? {
        return None;
      }
      var uniqueCategories := GetUniqueCategories(labels.value);
      AscendingDistinct(uniqueCategories);
      var distribution := CountEach(uniqueCategories);
      DistributionOfSorted(uniqueCategories, distribution);
      assert (set x | x in uniqueCategories) == Categories(labels.value);
      r := Some(distribution);
    }
  }
}
