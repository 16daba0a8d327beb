/**
 * The two actions of svc/Controllers/ApplicationsController.cs, as functions
 * of what the repository did. The repository itself (a SQL Server store) is
 * not modelled: its answer is an input, and for `CreateApplication` the model
 * also returns the log of repository calls the action made.
 */
module ApplicationsController {
  import opened Wrappers
  import opened Validation
  import Text

  /** A stored application row; timestamps are opaque instants. */
  datatype Application = Application(
    id: string, name: string, description: Option<string>, createdAt: int, updatedAt: int)

  /** The JSON body for one application: the row without its timestamps. */
  datatype ApplicationResponse = ApplicationResponse(id: string, name: string, description: Option<string>)

  datatype ErrorResponse = ErrorResponse(message: string, details: string)

  /** What `CreateAsync` did: returned the stored row, or threw. */
  datatype CreateOutcome =
    | Created(app: Application)
    | SqlFailure(number: int, message: string)   // a SqlException with its error number
    | OtherFailure(message: string)              // any other exception

  /** What `GetAllApplicationsAsync` did: returned the rows, or threw. */
  datatype ListOutcome = Listed(apps: seq<Application>) | ListFailure(message: string)

  datatype Body =
    | ApplicationList(items: seq<ApplicationResponse>)
    | ApplicationBody(item: ApplicationResponse)
    | ErrorBody(error: ErrorResponse)

  /** The `CreatedAtAction` reference: an action name and the new id as route value. */
  datatype RouteReference = RouteReference(actionName: string, id: string)

  datatype ActionResult = ActionResult(status: int, body: Body, location: Option<RouteReference>)

  /** A call the action made on the repository. */
  datatype RepositoryCall = CreateAsync(name: string, description: Option<string>)

  datatype CreateRun = CreateRun(result: ActionResult, calls: seq<RepositoryCall>)

  const Status200OK := 200
  const Status201Created := 201
  const Status409Conflict := 409
  const Status422UnprocessableEntity := 422
  const Status500InternalServerError := 500

  /** SQL Server's unique-constraint and unique-index violation numbers. */
  const UniqueConstraintViolation := 2627
  const UniqueIndexViolation := 2601

  const ListFailedMessage := "An error occurred while retrieving applications"
  const ValidationFailedMessage := "Validation failed"
  const ConflictMessage := "An application with this name already exists"
  const CreateFailedMessage := "An error occurred while creating the application"
  const GetApplicationsAction := "GetApplications"

  function ToResponse(app: Application): ApplicationResponse {
    ApplicationResponse(app.id, app.name, app.description)
  }

  const ConflictDetailsPrefix := "Application name '"

  /** The detail of a 409: names the requested application. */
  function ConflictDetails(name: string): string {
    ConflictDetailsPrefix + name + "' is already in use"
  }

  predicate IsUniqueViolation(number: int) {
    number == UniqueConstraintViolation || number == UniqueIndexViolation
  }

  /**
   * GET /api/v1/applications: 200 with one response per stored row, in the
   * store's order, or 500 carrying the exception's message.
   */
  function GetApplications(outcome: ListOutcome): (r: ActionResult)
    ensures r.status == Status200OK <==> outcome.Listed?
    ensures outcome.Listed? ==>
      && r.body.ApplicationList?
      && |r.body.items| == |outcome.apps|
      && forall i :: 0 <= i < |outcome.apps| ==>
           && r.body.items[i].id == outcome.apps[i].id
           && r.body.items[i].name == outcome.apps[i].name
           && r.body.items[i].description == outcome.apps[i].description
    ensures outcome.ListFailure? ==>
      && r.status == Status500InternalServerError
      && r.body == ErrorBody(ErrorResponse(ListFailedMessage, outcome.message))
    ensures r.location == None
  {
    match outcome
    case Listed(apps) =>
      ActionResult(Status200OK, ApplicationList(seq(|apps|, i requires 0 <= i < |apps| => ToResponse(apps[i]))), None)
    case ListFailure(message) =>
      ActionResult(Status500InternalServerError, ErrorBody(ErrorResponse(ListFailedMessage, message)), None)
  }

  /** The try/catch after validation passed: turns the repository's outcome into a response. */
  function ClassifyCreate(name: string, outcome: CreateOutcome): (r: ActionResult)
    ensures r.status == Status201Created <==> outcome.Created?
    ensures outcome.Created? ==>
      && r.body == ApplicationBody(ApplicationResponse(outcome.app.id, outcome.app.name, outcome.app.description))
      && r.location == Some(RouteReference(GetApplicationsAction, outcome.app.id))
    ensures r.status == Status409Conflict <==> outcome.SqlFailure? && IsUniqueViolation(outcome.number)
    ensures r.status == Status409Conflict ==>
      r.body == ErrorBody(ErrorResponse(ConflictMessage, ConflictDetails(name))) && r.location == None
    ensures r.status == Status500InternalServerError <==>
      outcome.OtherFailure? || (outcome.SqlFailure? && !IsUniqueViolation(outcome.number))
    ensures r.status == Status500InternalServerError ==>
      r.body == ErrorBody(ErrorResponse(CreateFailedMessage, outcome.message)) && r.location == None
  {
    match outcome
    case Created(app) =>
      ActionResult(Status201Created, ApplicationBody(ToResponse(app)), Some(RouteReference(GetApplicationsAction, app.id)))
    case SqlFailure(number, message) =>
      if IsUniqueViolation(number) then
        ActionResult(Status409Conflict, ErrorBody(ErrorResponse(ConflictMessage, ConflictDetails(name))), None)
      else
        ActionResult(Status500InternalServerError, ErrorBody(ErrorResponse(CreateFailedMessage, message)), None)
    case OtherFailure(message) =>
      ActionResult(Status500InternalServerError, ErrorBody(ErrorResponse(CreateFailedMessage, message)), None)
  }

  /** The validator the controller is given; the service injects `ValidateAsWritten`. */
  type Validator = CreateApplicationRequest -> seq<string>

  /**
   * POST /api/v1/applications, for the injected validator `validate`.
   * Validation comes first: a request with errors gets 422 and the
   * repository is never called; otherwise the repository is called once,
   * with the request's own name and description, and its outcome is
   * classified.
   */
  function CreateApplication(req: CreateApplicationRequest, validate: Validator,
                             repository: (string, Option<string>) -> CreateOutcome)
    : (run: CreateRun)
    ensures run.result.status == Status422UnprocessableEntity <==> validate(req) != []
    ensures validate(req) != [] ==>
      && run.calls == []
      && run.result.body == ErrorBody(ErrorResponse(ValidationFailedMessage, Text.Join(validate(req), Text.DetailsSeparator)))
      && run.result.location == None
    ensures validate(req) == [] ==>
      && run.calls == [CreateAsync(req.name, req.description)]
      && run.result == ClassifyCreate(req.name, repository(req.name, req.description))
  {
    var errors := validate(req);
    if errors != [] then
      CreateRun(
        ActionResult(Status422UnprocessableEntity,
          ErrorBody(ErrorResponse(ValidationFailedMessage, Text.Join(errors, Text.DetailsSeparator))), None),
        [])
    else
      CreateRun(ClassifyCreate(req.name, repository(req.name, req.description)), [CreateAsync(req.name, req.description)])
  }

  /**
   * Every create ends in exactly one of four outcomes, decided by the
   * validator and then by the repository's outcome alone.
   */
  lemma CreateOutcomePartition(req: CreateApplicationRequest, validate: Validator,
                               repository: (string, Option<string>) -> CreateOutcome)
    ensures var run := CreateApplication(req, validate, repository);
      var outcome := repository(req.name, req.description);
      && (run.result.status == Status422UnprocessableEntity <==> validate(req) != [])
      && (run.result.status == Status201Created <==> validate(req) == [] && outcome.Created?)
      && (run.result.status == Status409Conflict <==>
            validate(req) == [] && outcome.SqlFailure? && IsUniqueViolation(outcome.number))
      && (run.result.status == Status500InternalServerError <==>
            validate(req) == [] && (outcome.OtherFailure? || (outcome.SqlFailure? && !IsUniqueViolation(outcome.number))))
  {
  }

  /**
   * A rejected request's details split back into the validator's messages,
   * in order, for any validator that reports only the four rule messages
   * (both `Validate` and `ValidateAsWritten` do).
   */
  lemma ValidationDetailsListMessages(req: CreateApplicationRequest, validate: Validator,
                                      repository: (string, Option<string>) -> CreateOutcome)
    requires validate(req) != []
    requires forall m :: m in validate(req) ==> RuleRank(m) < 4
    ensures Text.SplitDetails(CreateApplication(req, validate, repository).result.body.error.details) == validate(req)
  {
    var errors := validate(req);
    forall k | 0 <= k < |errors| ensures ';' !in errors[k] {
      assert RuleRank(errors[k]) < 4;
      MessagesHaveNoSemicolon();
    }
    Text.SplitJoin(errors);
  }

  /**
   * The service's own controller (validator as written) passes a name with
   * a trailing newline on to the repository, where the corrected validator
   * answers 422 without a repository call.
   */
  lemma TrailingNewlineReachesRepository(repository: (string, Option<string>) -> CreateOutcome)
    ensures var req := CreateApplicationRequest("app\n", None);
      && CreateApplication(req, ValidateAsWritten, repository).calls == [CreateAsync("app\n", None)]
      && CreateApplication(req, ValidateAsWritten, repository).result.status != Status422UnprocessableEntity
      && CreateApplication(req, Validate, repository).calls == []
      && CreateApplication(req, Validate, repository).result.status == Status422UnprocessableEntity
  {
    TrailingNewlineAccepted();
  }

  /** A 409's details contain the requested name. */
  lemma ConflictDetailsNameTheRequest(req: CreateApplicationRequest, validate: Validator,
                                      repository: (string, Option<string>) -> CreateOutcome)
    requires CreateApplication(req, validate, repository).result.status == Status409Conflict
    ensures Text.Contains(CreateApplication(req, validate, repository).result.body.error.details, req.name)
  {
    var d := ConflictDetails(req.name);
    assert req.name <= d[|ConflictDetailsPrefix|..];
  }

  /**
   * The store returns rows ordered by name (`ORDER BY name`, decided by the
   * database's collation). Whatever that order `before` is, the listing keeps it.
   */
  lemma ListingKeepsStoreOrder(apps: seq<Application>, before: (string, string) -> bool)
    requires forall i, j :: 0 <= i < j < |apps| ==> before(apps[i].name, apps[j].name)
    ensures var r := GetApplications(Listed(apps));
      forall i, j :: 0 <= i < j < |r.body.items| ==> before(r.body.items[i].name, r.body.items[j].name)
  {
  }
}
