/**
 * The prediction-parameter validator `validate_crop_params`
 * (app/utils/validators.py). Both prediction endpoints call it before any
 * inference: the POST route on the JSON request body, the GET route on a
 * dictionary of the seven parameters it has already converted to floats
 * itself. It answers `None` when the payload is acceptable and otherwise a
 * dictionary from offending key to a French error message.
 */
module Validators {
  import opened Wrappers

  /** A JSON value of the payload, as far as the validator can observe it. */
  datatype Value =
    | Null
    | Bool(b: bool)
    | Num(x: real)
    | Str(s: string)
    | Container(size: nat)  // a JSON array or object, with its number of entries

  type Payload = map<string, Value>
  type ErrorMap = map<string, string>

  /** Python's `float()` applied to a string: the parser is not part of the model. */
  type FloatParser = string -> Option<real>

  /** The seven agronomic parameters, in the order the validator visits them. */
  const RequiredParams: seq<string> := ["N", "P", "K", "temperature", "humidity", "ph", "rainfall"]

  const ModelTypeKey: string := "model_type"
  const ModelTypes: seq<string> := ["gradient_boosting", "tensorflow", "tensorflow_lite"]
  const ModelTypeMessage: string :=
    "Le type de modèle doit être " + "'gradient_boosting', 'tensorflow' ou 'tensorflow_lite'"

  /**
   * One row of the inclusive range table. Each message is written as its
   * subject followed by the range sentence, so that the two halves stay short
   * literals the verifier can read character by character.
   */
  datatype Rule = Rule(lo: int, hi: int, message: string)

  const Validations: map<string, Rule> := map[
    "N" := Rule(0, 300, "Le niveau d'azote " + "doit être compris entre 0 et 300"),
    "P" := Rule(0, 300, "Le niveau de phosphore " + "doit être compris entre 0 et 300"),
    "K" := Rule(0, 300, "Le niveau de potassium " + "doit être compris entre 0 et 300"),
    "temperature" := Rule(-10, 60, "La température " + "doit être comprise entre -10 et 60°C"),
    "humidity" := Rule(0, 100, "L'humidité " + "doit être comprise entre 0 et 100%"),
    "ph" := Rule(0, 14, "Le pH " + "doit être compris entre 0 et 14"),
    "rainfall" := Rule(0, 500, "Les précipitations " + "doivent être comprises entre 0 et 500 mm")
  ]

  function RequiredMessage(p: string): string {
    "Le paramètre '" + p + "' est requis"
  }

  function NotNumberMessage(p: string): string {
    "La valeur de '" + p + "' doit être un nombre"
  }

  /** Python's `float(v)`: `None` stands for the ValueError/TypeError the validator catches. */
  function ToFloat(v: Value, parse: FloatParser): Option<real> {
    match v
    case Null => None
    case Bool(b) => Some(if b then 1.0 else 0.0)
    case Num(x) => Some(x)
    case Str(s) => parse(s)
    case Container(_) => None
  }

  /** Python truthiness of a JSON value. */
  predicate Truthy(v: Value) {
    match v
    case Null => false
    case Bool(b) => b
    case Num(x) => x != 0.0
    case Str(s) => s != ""
    case Container(n) => n > 0
  }

  predicate InRange(p: string, x: real)
    requires p in Validations
  {
    Validations[p].lo as real <= x <= Validations[p].hi as real
  }

  /** The verdict on one present parameter: a conversion error, a range error or nothing. */
  function ValueError(p: string, v: Value, parse: FloatParser): Option<string>
    requires p in Validations
  {
    match ToFloat(v, parse)
    case None => Some(NotNumberMessage(p))
    case Some(x) => if InRange(p, x) then None else Some(Validations[p].message)
  }

  /** `model_type` is present, truthy and not one of the three model names. */
  predicate ModelTypeInvalid(data: Payload) {
    && ModelTypeKey in data
    && Truthy(data[ModelTypeKey])
    && !(data[ModelTypeKey].Str? && data[ModelTypeKey].s in ModelTypes)
  }

  /** The "is required" errors for the parameters among `ps` that `data` lacks. */
  function MissingErrors(data: Payload, ps: seq<string>): ErrorMap {
    map p | p in ps && p !in data :: RequiredMessage(p)
  }

  /** The conversion and range errors of the parameters among `ps`. */
  function ValueErrors(data: Payload, parse: FloatParser, ps: seq<string>): ErrorMap {
    map p | p in ps && p in data && p in Validations && ValueError(p, data[p], parse).Some?
      :: ValueError(p, data[p], parse).value
  }

  function ModelTypeErrors(data: Payload): ErrorMap {
    if ModelTypeInvalid(data) then map[ModelTypeKey := ModelTypeMessage] else map[]
  }

  predicate AllPresent(data: Payload) {
    forall p :: p in RequiredParams ==> p in data
  }

  /** The first loop records nothing exactly when every parameter is present. */
  lemma MissingNoneIffAllPresent(data: Payload)
    ensures MissingErrors(data, RequiredParams) == map[] <==> AllPresent(data)
  {
    if !AllPresent(data) {
      var p :| p in RequiredParams && p !in data;
      assert p in MissingErrors(data, RequiredParams);
    }
  }

  /**
   * The dictionary `validate_crop_params` builds: the missing-key errors alone
   * when any key is missing, otherwise the value errors and the `model_type`
   * error.
   */
  function RecordedErrors(data: Payload, parse: FloatParser): ErrorMap {
    var missing := MissingErrors(data, RequiredParams);
    if missing != map[] then missing
    else ValueErrors(data, parse, RequiredParams) + ModelTypeErrors(data)
  }

  /** What `validate_crop_params` returns: an empty dictionary is reported as `None`. */
  function Validation(data: Payload, parse: FloatParser): (r: Option<ErrorMap>)
    ensures r.Some? ==> r.value != map[]
    ensures r.Some? ==> forall k :: k in r.value ==> k in RequiredParams || k == ModelTypeKey
    ensures !AllPresent(data) ==> r.Some? && ModelTypeKey !in r.value
  {
    MissingNoneIffAllPresent(data);
    var errors := RecordedErrors(data, parse);
    if errors == map[] then None else Some(errors)
  }

  /** The error recorded for key `k`, if any. */
  function ErrorAt(r: Option<ErrorMap>, k: string): Option<string> {
    if r.Some? && k in r.value then Some(r.value[k]) else None
  }

  /** Every parameter has a row in the range table. */
  lemma RequiredParamsHaveRules()
    ensures forall p :: p in RequiredParams ==> p in Validations
  {
  }

  /** One iteration of the first loop. */
  lemma MissingErrorsStep(data: Payload, ps: seq<string>, p: string)
    ensures MissingErrors(data, ps + [p]) ==
      if p in data then MissingErrors(data, ps) else MissingErrors(data, ps)[p := RequiredMessage(p)]
  {
  }

  /** One iteration of the second loop. */
  lemma ValueErrorsStep(data: Payload, parse: FloatParser, ps: seq<string>, p: string)
    requires p in data && p in Validations
    ensures ValueErrors(data, parse, ps + [p]) ==
      match ToFloat(data[p], parse)
      case None => ValueErrors(data, parse, ps)[p := NotNumberMessage(p)]
      case Some(x) =>
        if x < Validations[p].lo as real || x > Validations[p].hi as real
        then ValueErrors(data, parse, ps)[p := Validations[p].message]
        else ValueErrors(data, parse, ps)
  {
  }

  /** The early return: a payload with missing keys is answered with their errors. */
  lemma ValidationWhenMissing(data: Payload, parse: FloatParser)
    requires MissingErrors(data, RequiredParams) != map[]
    ensures Validation(data, parse) == Some(MissingErrors(data, RequiredParams))
  {
  }

  /** The final return: the recorded value and `model_type` errors, `None` when there are none. */
  lemma ValidationWhenComplete(data: Payload, parse: FloatParser, errors: ErrorMap)
    requires MissingErrors(data, RequiredParams) == map[]
    requires errors == ValueErrors(data, parse, RequiredParams) + ModelTypeErrors(data)
    ensures Validation(data, parse) == if errors != map[] then Some(errors) else None
  {
  }

  /** The conditional insert of the `model_type` error. */
  lemma ModelTypeErrorsStep(e: ErrorMap, data: Payload)
    ensures e + ModelTypeErrors(data) ==
      if ModelTypeInvalid(data) then e[ModelTypeKey := ModelTypeMessage] else e
  {
  }

  /**
   * The validator as the source runs it: a first loop collecting missing keys
   * with an early return, a second loop converting and range-checking each
   * value, then the `model_type` whitelist.
   */
  method ValidateCropParams(data: Payload, parse: FloatParser) returns (r: Option<ErrorMap>)
    ensures r == Validation(data, parse)
  {
    var errors: ErrorMap := map[];
    for i := 0 to |RequiredParams|
      invariant errors == MissingErrors(data, RequiredParams[..i])
    {
      var param := RequiredParams[i];
      assert RequiredParams[..i + 1] == RequiredParams[..i] + [param];
      MissingErrorsStep(data, RequiredParams[..i], param);
      if param !in data {
        errors := errors[param := RequiredMessage(param)];
      }
    }
    assert RequiredParams[..|RequiredParams|] == RequiredParams;
    if errors != map[] {
      ValidationWhenMissing(data, parse);
      return Some(errors);
    }
    MissingNoneIffAllPresent(data);

    RequiredParamsHaveRules();
    for i := 0 to |RequiredParams|
      invariant errors == ValueErrors(data, parse, RequiredParams[..i])
    {
      var param := RequiredParams[i];
      assert RequiredParams[..i + 1] == RequiredParams[..i] + [param];
      ValueErrorsStep(data, parse, RequiredParams[..i], param);
      var rule := Validations[param];
      match ToFloat(data[param], parse)
      case None =>
        errors := errors[param := NotNumberMessage(param)];
      case Some(value) =>
        if value < rule.lo as real || value > rule.hi as real {
          errors := errors[param := rule.message];
        }
    }
    assert RequiredParams[..|RequiredParams|] == RequiredParams;

    ghost var valueErrors := errors;
    var modelType := if ModelTypeKey in data then data[ModelTypeKey] else Null;
    assert Truthy(modelType) && !(modelType.Str? && modelType.s in ModelTypes) <==> ModelTypeInvalid(data);
    if Truthy(modelType) && !(modelType.Str? && modelType.s in ModelTypes) {
      errors := errors[ModelTypeKey := ModelTypeMessage];
    }
    ModelTypeErrorsStep(valueErrors, data);
    ValidationWhenComplete(data, parse, errors);
    r := if errors != map[] then Some(errors) else None;
  }

  // ---------------------------------------------------------------------
  // Properties of the validator
  // ---------------------------------------------------------------------

  /**
   * A payload lacking any parameter is answered with exactly the missing
   * parameters, each with its "is required" message, and nothing else: no
   * range, conversion or `model_type` error.
   */
  lemma MissingParamsReturnEarly(data: Payload, parse: FloatParser)
    requires exists p :: p in RequiredParams && p !in data
    ensures Validation(data, parse).Some?
    ensures forall k :: k in Validation(data, parse).value <==> k in RequiredParams && k !in data
    ensures forall k :: k in Validation(data, parse).value ==> Validation(data, parse).value[k] == RequiredMessage(k)
  {
    MissingNoneIffAllPresent(data);
  }

  /**
   * With every parameter present, a numeric parameter gets the range error
   * of its table row exactly when it lies outside the closed range, and no
   * error at all when it lies inside.
   */
  lemma RangeErrorIff(data: Payload, parse: FloatParser, k: string, x: real)
    requires AllPresent(data) && k in RequiredParams && ToFloat(data[k], parse) == Some(x)
    ensures k in Validations
    ensures ErrorAt(Validation(data, parse), k) == Some(Validations[k].message)
        <==> x < Validations[k].lo as real || x > Validations[k].hi as real
    ensures ErrorAt(Validation(data, parse), k) == None
        <==> Validations[k].lo as real <= x <= Validations[k].hi as real
  {
    RequiredParamsHaveRules();
    MissingNoneIffAllPresent(data);
    assert k != ModelTypeKey;
    assert k in ValueErrors(data, parse, RequiredParams) <==> !InRange(k, x);
  }

  /** The closed ranges of the table, parameter by parameter. */
  lemma RangeTable()
    ensures Validations.Keys == set p | p in RequiredParams
    ensures Validations["N"].lo == Validations["P"].lo == Validations["K"].lo == 0
    ensures Validations["N"].hi == Validations["P"].hi == Validations["K"].hi == 300
    ensures Validations["temperature"].lo == -10 && Validations["temperature"].hi == 60
    ensures Validations["humidity"].lo == 0 && Validations["humidity"].hi == 100
    ensures Validations["ph"].lo == 0 && Validations["ph"].hi == 14
    ensures Validations["rainfall"].lo == 0 && Validations["rainfall"].hi == 500
  {
  }

  /**
   * With every parameter present, a value `float()` rejects gets the
   * "must be a number" error, never the range error.
   */
  lemma NonNumericGetsNumberError(data: Payload, parse: FloatParser, k: string)
    requires AllPresent(data) && k in RequiredParams && ToFloat(data[k], parse).None?
    ensures k in Validations
    ensures ErrorAt(Validation(data, parse), k) == Some(NotNumberMessage(k))
    ensures NotNumberMessage(k) != Validations[k].message
  {
    RequiredParamsHaveRules();
    MissingNoneIffAllPresent(data);
    assert k != ModelTypeKey;
    assert k in ValueErrors(data, parse, RequiredParams);
    RangeMessagesAreNotNumberMessages(k);
  }

  /** No range message reads as a "must be a number" message: they differ at their fourth character. */
  lemma RangeMessagesAreNotNumberMessages(k: string)
    requires k in Validations
    ensures NotNumberMessage(k) != Validations[k].message
  {
    assert NotNumberMessage(k)[3] == 'v';
    assert Validations["N"].message[3] == 'n';
    assert Validations["P"].message[3] == 'n';
    assert Validations["K"].message[3] == 'n';
    assert Validations["temperature"].message[3] == 't';
    assert Validations["humidity"].message[3] == 'u';
    assert Validations["ph"].message[3] == 'p';
    assert Validations["rainfall"].message[3] == ' ';
    assert k in {"N", "P", "K", "temperature", "humidity", "ph", "rainfall"};
  }

  /**
   * Each key's verdict depends on its own value only: replacing the value of
   * a present key `k` leaves the error recorded for every other key as it was.
   */
  lemma ErrorsAreLocal(data: Payload, parse: FloatParser, k: string, v: Value, j: string)
    requires k in data && j != k
    ensures ErrorAt(Validation(data[k := v], parse), j) == ErrorAt(Validation(data, parse), j)
  {
    var data' := data[k := v];
    ErrorAtIsRecorded(data, parse, j);
    ErrorAtIsRecorded(data', parse, j);
    var m, m' := MissingErrors(data, RequiredParams), MissingErrors(data', RequiredParams);
    assert m' == m;
    if m == map[] {
      assert j in ModelTypeErrors(data') <==> j in ModelTypeErrors(data);
      var e := ValueErrors(data, parse, RequiredParams);
      var e' := ValueErrors(data', parse, RequiredParams);
      assert j in e' <==> j in e;
      assert j in e ==> e'[j] == e[j];
    }
  }

  /** The error reported for a key is the one recorded for it, whether or not the answer is `None`. */
  lemma ErrorAtIsRecorded(data: Payload, parse: FloatParser, j: string)
    ensures ErrorAt(Validation(data, parse), j)
         == if j in RecordedErrors(data, parse) then Some(RecordedErrors(data, parse)[j]) else None
  {
  }

  /**
   * `model_type` is the only optional key: once the parameters are all
   * present, it has an error exactly when it is present, truthy and not one of
   * the three model names.
   */
  lemma ModelTypeErrorIff(data: Payload, parse: FloatParser)
    requires AllPresent(data)
    ensures ErrorAt(Validation(data, parse), ModelTypeKey) == Some(ModelTypeMessage)
        <==> ModelTypeKey in data && Truthy(data[ModelTypeKey])
             && data[ModelTypeKey] !in [Str("gradient_boosting"), Str("tensorflow"), Str("tensorflow_lite")]
  {
    MissingNoneIffAllPresent(data);
    assert ModelTypeKey !in ValueErrors(data, parse, RequiredParams);
  }

  /** An absent or falsy `model_type` (None, "", 0, ...) is never an error. */
  lemma AbsentModelTypeNeverAnError(data: Payload, parse: FloatParser)
    requires ModelTypeKey !in data || !Truthy(data[ModelTypeKey])
    ensures ErrorAt(Validation(data, parse), ModelTypeKey) == None
  {
    MissingNoneIffAllPresent(data);
    assert ModelTypeKey !in ValueErrors(data, parse, RequiredParams);
  }

  /** The payloads the validator accepts, stated parameter by parameter. */
  predicate Acceptable(data: Payload, parse: FloatParser) {
    && (forall p :: p in RequiredParams ==>
          && p in data && p in Validations
          && ToFloat(data[p], parse).Some? && InRange(p, ToFloat(data[p], parse).value))
    && !ModelTypeInvalid(data)
  }

  /** `None` is returned exactly for the acceptable payloads. */
  lemma AcceptedIffAcceptable(data: Payload, parse: FloatParser)
    ensures Validation(data, parse) == None <==> Acceptable(data, parse)
  {
    RequiredParamsHaveRules();
    MissingNoneIffAllPresent(data);
    if Validation(data, parse) == None {
      forall p | p in RequiredParams
        ensures ToFloat(data[p], parse).Some? && InRange(p, ToFloat(data[p], parse).value)
      {
        assert p !in ValueErrors(data, parse, RequiredParams);
      }
      assert ModelTypeKey !in ModelTypeErrors(data);
    }
    if Acceptable(data, parse) {
      assert ValueErrors(data, parse, RequiredParams) == map[];
    }
  }

  // ---------------------------------------------------------------------
  // The two rejected payloads of test/test_predict.py, and the accepted one
  // ---------------------------------------------------------------------

  function SamplePayload(): Payload {
    map["N" := Num(90.0), "P" := Num(42.0), "K" := Num(43.0), "temperature" := Num(21.0),
        "humidity" := Num(82.0), "ph" := Num(6.5), "rainfall" := Num(200.0)]
  }

  /** A payload without K is rejected, with the single error "K is required". */
  lemma MissingPotassiumRejected(parse: FloatParser)
    ensures Validation(SamplePayload() - {"K"}, parse) == Some(map["K" := RequiredMessage("K")])
  {
    var data := SamplePayload() - {"K"};
    assert "K" in RequiredParams && "K" !in data;
    MissingParamsReturnEarly(data, parse);
    var r := Validation(data, parse).value;
    assert forall k :: k in RequiredParams && k !in data <==> k == "K";
    assert r.Keys == {"K"};
    assert r["K"] == RequiredMessage("K");
    assert r == map["K" := RequiredMessage("K")];
  }

  /** The sample payload lies inside every range. */
  lemma SampleInRange(parse: FloatParser)
    ensures forall p :: p in RequiredParams ==>
      && p in SamplePayload() && p in Validations
      && ToFloat(SamplePayload()[p], parse).Some? && InRange(p, ToFloat(SamplePayload()[p], parse).value)
  {
  }

  /** A temperature of 100 is rejected with the temperature range error only. */
  lemma HighTemperatureRejected(parse: FloatParser)
    ensures Validation(SamplePayload()["temperature" := Num(100.0)], parse)
         == Some(map["temperature" := Validations["temperature"].message])
  {
    var data := SamplePayload()["temperature" := Num(100.0)];
    SampleInRange(parse);
    assert AllPresent(data);
    MissingNoneIffAllPresent(data);
    assert !ModelTypeInvalid(data);
    var e := ValueErrors(data, parse, RequiredParams);
    forall p ensures p in e <==> p == "temperature" {
      if p != "temperature" && p in RequiredParams {
        assert data[p] == SamplePayload()[p];
      }
    }
    assert e.Keys == {"temperature"};
    assert e == map["temperature" := Validations["temperature"].message];
    assert MissingErrors(data, RequiredParams) == map[];
    assert e + ModelTypeErrors(data) == e;
  }

  /** The well-formed sample payload with `model_type` "gradient_boosting" is accepted. */
  lemma SamplePayloadAccepted(parse: FloatParser)
    ensures Validation(SamplePayload()[ModelTypeKey := Str("gradient_boosting")], parse) == None
  {
    var data := SamplePayload()[ModelTypeKey := Str("gradient_boosting")];
    SampleInRange(parse);
    forall p | p in RequiredParams ensures p in data && data[p] == SamplePayload()[p] {
      assert p != ModelTypeKey;
    }
    assert !ModelTypeInvalid(data);
    AcceptedIffAcceptable(data, parse);
  }
}
