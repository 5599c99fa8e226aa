/**
 * Field constraints of the request and response bodies of the prediction
 * endpoint (`PredictionRequest` and `PredictionResponse` in
 * api/models/schemas.py), as the validation that accepts or refuses a body.
 */
module Schemas {
  import opened Wrappers

  const MinTextLength: nat := 10
  const MaxTextLength: nat := 5000
  const DefaultThreshold: real := 0.5

  /** A field of a JSON body: left out, sent as `null`, or given a value. */
  datatype Field<T> = Missing | JsonNull | Given(value: T)

  datatype ValidationError =
    | FieldRequired(field: string)
    | TooShort(field: string)
    | TooLong(field: string)
    | OutOfRange(field: string)

  datatype PredictionRequest = PredictionRequest(text: string, threshold: Option<real>)

  datatype PredictionResponse = PredictionResponse(
    predictedClass: string,
    confidence: real,
    probabilities: map<string, real>,
    categories: seq<string>)

  /** What every accepted request satisfies. */
  predicate ValidRequest(req: PredictionRequest)
  {
    && MinTextLength <= |req.text| <= MaxTextLength
    && (req.threshold.Some? ==> 0.0 <= req.threshold.value <= 1.0)
  }

  /** What every constructed response satisfies. */
  predicate ValidResponse(resp: PredictionResponse)
  {
    0.0 <= resp.confidence <= 1.0
  }

  /**
   * Validation of a request body: `text` is required and 10 to 5000
   * characters long; `threshold` may be left out (it is then 0.5) or be
   * `null`, and a given value lies in [0, 1].
   */
  function ParseRequest(text: Field<string>, threshold: Field<real>): (r: Result<PredictionRequest, ValidationError>)
    ensures r.Success? <==>
      && text.Given? && MinTextLength <= |text.value| <= MaxTextLength
      && (threshold.Given? ==> 0.0 <= threshold.value <= 1.0)
    ensures r.Success? ==> ValidRequest(r.value) && r.value.text == text.value
    ensures r.Success? && threshold.Missing? ==> r.value.threshold == Some(DefaultThreshold)
    ensures r.Success? && threshold.JsonNull? ==> r.value.threshold == None
    ensures r.Success? && threshold.Given? ==> r.value.threshold == Some(threshold.value)
    ensures text.Given? && |text.value| < MinTextLength ==> r == Failure(TooShort("text"))
  {
    if !text.Given? then Failure(FieldRequired("text"))
    else if |text.value| < MinTextLength then Failure(TooShort("text"))
    else if |text.value| > MaxTextLength then Failure(TooLong("text"))
    else match threshold
      case Missing => Success(PredictionRequest(text.value, Some(DefaultThreshold)))
      case JsonNull => Success(PredictionRequest(text.value, None))
      case Given(t) =>
        if 0.0 <= t <= 1.0 then Success(PredictionRequest(text.value, Some(t)))
        else Failure(OutOfRange("threshold"))
  }

  /**
   * Construction of a response: all four fields are required and the
   * confidence lies in [0, 1].
   */
  function MakeResponse(
    predictedClass: Field<string>,
    confidence: Field<real>,
    probabilities: Field<map<string, real>>,
    categories: Field<seq<string>>): (r: Result<PredictionResponse, ValidationError>)
    ensures r.Success? <==>
      && predictedClass.Given? && confidence.Given? && probabilities.Given? && categories.Given?
      && 0.0 <= confidence.value <= 1.0
    ensures r.Success? ==>
      && ValidResponse(r.value)
      && r.value.predictedClass == predictedClass.value
      && r.value.confidence == confidence.value
      && r.value.probabilities == probabilities.value
      && r.value.categories == categories.value
  {
    if !predictedClass.Given? then Failure(FieldRequired("predicted_class"))
    else if !confidence.Given? then Failure(FieldRequired("confidence"))
    else if !probabilities.Given? then Failure(FieldRequired("probabilities"))
    else if !categories.Given? then Failure(FieldRequired("categories"))
    else if !(0.0 <= confidence.value <= 1.0) then Failure(OutOfRange("confidence"))
    else Success(PredictionResponse(predictedClass.value, confidence.value, probabilities.value, categories.value))
  }
}
