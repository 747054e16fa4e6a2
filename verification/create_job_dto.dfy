/** The request body accepted when a job is created, and the validation the
    global validation pipe applies to it before the service sees it. */
module CreateJobDto {
  import opened Common
  import opened JobEntity

  /** The JavaScript kind of a request-body value, as the validators inspect it. */
  datatype JsKind = JsNull | JsBoolean | JsNumber | JsString | JsArray | JsObject

  /** The `config` value of a request: its kind, and the JSON text it serialises to. */
  datatype ConfigValue = ConfigValue(kind: JsKind, json: string)

  datatype CreateJobDto = CreateJobDto(
    name: string,
    description: Option<string>,
    cronExpression: string,
    jobType: string,                     // must name one of the `JobType` values
    config: ConfigValue,
    isActive: Option<bool>,
    maxRetries: Option<int>)

  /** The bounds on `maxRetries`. */
  const MinMaxRetries: int := 0
  const MaxMaxRetries: int := 10

  /** One validation rule of the request body. */
  datatype Constraint =
    | NameNotEmpty
    | CronExpressionNotEmpty
    | TypeIsEnum
    | ConfigIsObject
    | MaxRetriesAtLeastMin
    | MaxRetriesAtMostMax

  /** Whether `dto` satisfies rule `c`. Optional fields that are absent satisfy
      every rule on them. */
  predicate Satisfies(dto: CreateJobDto, c: Constraint) {
    match c
    case NameNotEmpty => dto.name != ""
    case CronExpressionNotEmpty => dto.cronExpression != ""
    case TypeIsEnum => ParseJobType(dto.jobType).Some?
    case ConfigIsObject => dto.config.kind == JsObject
    case MaxRetriesAtLeastMin => dto.maxRetries.None? || MinMaxRetries <= dto.maxRetries.value
    case MaxRetriesAtMostMax => dto.maxRetries.None? || dto.maxRetries.value <= MaxMaxRetries
  }

  /** Every rule, in the order the validators are declared. */
  const AllConstraints: seq<Constraint> := [
    NameNotEmpty, CronExpressionNotEmpty, TypeIsEnum,
    ConfigIsObject, MaxRetriesAtLeastMin, MaxRetriesAtMostMax]

  lemma RuleListed(c: Constraint)
    ensures c in AllConstraints
  {
  }

  /** The rules of `cs` that `dto` breaks, in order. */
  function Failing(dto: CreateJobDto, cs: seq<Constraint>): (vs: seq<Constraint>)
    ensures forall c :: c in vs <==> c in cs && !Satisfies(dto, c)
    ensures (forall i, j :: 0 <= i < j < |cs| ==> cs[i] != cs[j]) ==>
              forall i, j :: 0 <= i < j < |vs| ==> vs[i] != vs[j]
  {
    if cs == [] then []
    else
      var rest := Failing(dto, cs[1..]);
      assert forall c :: c in cs <==> c == cs[0] || c in cs[1..];
      if Satisfies(dto, cs[0]) then rest else [cs[0]] + rest
  }

  /** Every rule the body breaks, each reported once, in declaration order. */
  function Violations(dto: CreateJobDto): (vs: seq<Constraint>)
    ensures forall c :: c in vs <==> !Satisfies(dto, c)
    ensures forall i, j :: 0 <= i < j < |vs| ==> vs[i] != vs[j]
  {
    assert forall c :: c in AllConstraints by {
      forall c ensures c in AllConstraints { RuleListed(c); }
    }
    Failing(dto, AllConstraints)
  }

  /** A body that passed validation, with its job type resolved. */
  datatype ValidJobInput = ValidJobInput(
    name: string,
    description: Option<string>,
    cronExpression: string,
    jobType: JobType,
    configJson: string,
    isActive: Option<bool>,
    maxRetries: Option<int>)

  /** The validation pipe: either the typed input, or every rule the body breaks. */
  function Validate(dto: CreateJobDto): (r: Result<ValidJobInput, seq<Constraint>>)
    ensures r.Ok? <==> forall c :: Satisfies(dto, c)
    ensures r.Err? ==> |r.error| > 0 && forall c :: c in r.error <==> !Satisfies(dto, c)
    ensures r.Ok? ==>
      && r.value.name == dto.name && r.value.name != ""
      && r.value.cronExpression == dto.cronExpression && r.value.cronExpression != ""
      && JobTypeName(r.value.jobType) == dto.jobType
      && r.value.configJson == dto.config.json
      && r.value.description == dto.description
      && r.value.isActive == dto.isActive
      && r.value.maxRetries == dto.maxRetries
      && MinMaxRetries <= r.value.maxRetries.GetOr(DefaultMaxRetries) <= MaxMaxRetries
  {
    var vs := Violations(dto);
    if vs != [] then
      assert !Satisfies(dto, vs[0]);
      Err(vs)
    else
      assert !(exists c :: !Satisfies(dto, c)) by {
        forall c ensures Satisfies(dto, c) { assert c !in vs; }
      }
      assert Satisfies(dto, TypeIsEnum) && Satisfies(dto, CronExpressionNotEmpty);
      assert Satisfies(dto, NameNotEmpty) && Satisfies(dto, MaxRetriesAtLeastMin);
      assert Satisfies(dto, MaxRetriesAtMostMax);
      Ok(ValidJobInput(dto.name, dto.description, dto.cronExpression,
                       ParseJobType(dto.jobType).value, dto.config.json,
                       dto.isActive, dto.maxRetries))
  }
}
