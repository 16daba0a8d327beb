# Application create/list service: validation and outcome classification

A model of the two request paths of the configuration service's
`/api/v1/applications` endpoint:

- **Validation** (`validation.dfy`): the FluentValidation rule chain for a
  create request. The name must pass `NotEmpty` (not null, empty or white
  space only), `Length(1, 255)` and `Matches("^[a-zA-Z0-9_\-]+$")`; a
  description that is not null or white space must be at most 1000
  characters. FluentValidation runs every check of a rule, so an empty name
  yields all three name messages, and the messages come out in rule order.
- **Controller** (`controller.dfy`): `GetApplications` projects the stored
  rows to `{Id, Name, Description}` in the store's order (200), or reports
  the failure (500). `CreateApplication` validates first (422, messages
  joined by `"; "`, no repository call), then calls the repository once with
  the request's name and description and classifies the outcome: a stored
  row gives 201 with a reference to `GetApplications`, a `SqlException`
  numbered 2627 or 2601 (SQL Server's unique-constraint and unique-index
  violations) gives 409 naming the requested name, and anything else gives
  500 carrying the exception's message.
- **Text** (`text.dfy`): `string.Join` and its inverse on `"; "`, used to
  show that a 422's details hold exactly the validator's messages, in order.
- **Wrappers** (`wrappers.dfy`): `Option`, standing for a nullable string.

The repository is not modelled: the controller functions take what the
repository did (a stored row, a SQL error with its number, another
exception) as an input; `CreateApplication` takes the repository as a
function and returns the log of calls it made on it. It also takes the
injected validator as a function, and its contracts hold for any validator:
the service's own controller is `CreateApplication` with `ValidateAsWritten`,
the corrected one is `CreateApplication` with `Validate` (see "## Findings").

## Model

| member | source | states |
|---|---|---|
| `Validation.Validate` | svc/Validation/CreateApplicationRequestValidator.cs:8-22 | each message appears exactly when its check fails (required iff the name is blank; length iff not 1..255; charset iff not one or more of `[A-Za-z0-9_-]`; description iff non-null, non-blank and over 1000); messages follow rule order without repeats; no errors iff the name is 1..255 name characters and the description is null, blank or at most 1000 |
| `Validation.ValidateAsWritten` | svc/Validation/CreateApplicationRequestValidator.cs:10-21 | the rule chain as the source evaluates it: required iff the name is blank; length iff not 1..255; charset iff .NET's match of the pattern fails; description iff non-null, non-blank and over 1000; only the four messages, in rule order without repeats; no errors iff the name is 1..255 long and matches the pattern and the description is null, blank or at most 1000 |
| `Validation.PatternMatchNotBlank` | svc/Validation/CreateApplicationRequestValidator.cs:11-15 | a name the pattern matches also passes `NotEmpty` |
| `Validation.MatchesNamePatternExactly` | svc/Validation/CreateApplicationRequestValidator.cs:15 | the pattern `^[a-zA-Z0-9_\-]+$` matches exactly the nonempty name-character strings and those strings followed by one `'\n'` |
| `Validation.AsWrittenDiffersOnlyOnTrailingNewline` | svc/Validation/CreateApplicationRequestValidator.cs:15-16 | the validator as written and the corrected one disagree iff the name is a valid run of name characters followed by one `'\n'` |
| `Validation.TrailingNewlineAccepted` | svc/Validation/CreateApplicationRequestValidator.cs:15-16 | the request `("app\n", null)` passes the source's validator, while the corrected one reports only the charset message |
| `Validation.RulesIndependent` | svc/Validation/CreateApplicationRequestValidator.cs:10-21 | a request's errors are its name's errors (as with no description) followed by its description's errors (as with a valid name): neither rule suppresses or alters the other |
| `Validation.EmptyNameFailsEveryNameCheck` | svc/Validation/CreateApplicationRequestValidator.cs:10-16 | an empty name yields the required, length and charset messages, in that order |
| `Validation.NameCharsNotBlank` | svc/Validation/CreateApplicationRequestValidator.cs:11-16 | a name that passes the charset check also passes `NotEmpty` |
| `Validation.MessagesHaveNoSemicolon` | svc/Validation/CreateApplicationRequestValidator.cs:12-20 | none of the four messages contains `';'` |
| `Text.Join` | svc/Controllers/ApplicationsController.cs:69 | joining no parts gives the empty string, one part gives that part, and the first part is a prefix of the result |
| `Text.SplitJoin` | svc/Controllers/ApplicationsController.cs:69 | parts without `';'` joined by `"; "` split back into the same parts, in order |
| `ApplicationsController.GetApplications` | svc/Controllers/ApplicationsController.cs:32-55 | 200 iff the repository listed rows; then one response per row, same order, Id/Name/Description copied (an empty store gives an empty list); on failure 500 with "An error occurred while retrieving applications" and the exception's message |
| `ApplicationsController.ListingKeepsStoreOrder` | svc/Controllers/ApplicationsController.cs:36-44 | whatever order the store's rows are in by name, the listed responses are in the same order |
| `ApplicationsController.ClassifyCreate` | svc/Controllers/ApplicationsController.cs:77-109 | 201 iff a row was stored, echoing its Id/Name/Description with a `GetApplications` reference to its id; 409 iff a SQL error numbered 2627 or 2601, with the conflict message and the name detail; 500 iff any other exception (other SQL numbers included), carrying its message |
| `ApplicationsController.CreateApplication` | svc/Controllers/ApplicationsController.cs:62-110 | for the injected validator: 422 iff it reports errors, with "Validation failed", the messages joined by `"; "` and no repository call; otherwise exactly one repository call, with the request's own name and description, and the response classifies its outcome |
| `ApplicationsController.CreateOutcomePartition` | svc/Controllers/ApplicationsController.cs:66-109 | every create ends in exactly one of 422 (invalid), 201 (valid, stored), 409 (valid, unique violation), 500 (valid, any other failure) |
| `ApplicationsController.ValidationDetailsListMessages` | svc/Controllers/ApplicationsController.cs:67-74 | for a validator that reports only the four rule messages, a 422's details split on `"; "` give back its messages, in order |
| `ApplicationsController.TrailingNewlineReachesRepository` | svc/Controllers/ApplicationsController.cs:66-79 | with the validator as written, `("app\n", null)` is passed to `CreateAsync` and is not answered 422; with the corrected validator it gets 422 and no repository call |
| `ApplicationsController.ConflictDetailsNameTheRequest` | svc/Controllers/ApplicationsController.cs:92-99 | a 409's details contain the requested name |

## Left out

- The repository's `CreateAsync` (the two-row transaction, the default configuration row, identifier generation) is not part of this model; only its interface (svc/Repositories/IApplicationRepository.cs) is, as the outcome datatype.
- The `ORDER BY name` of `GetAllApplicationsAsync` is the database's (its collation is not modelled); `ListingKeepsStoreOrder` takes that order as a parameter.
- Validation.Validate: lengths are counted in Dafny characters (Unicode scalar values), while .NET's `string.Length` counts UTF-16 code units, so a name or description with characters outside the Basic Multilingual Plane is shorter here than in .NET.
- Validation.Validate: the name is never null here; the request class is not part of this model. With a null name FluentValidation reports only the required message.
- Validation.ValidateAsWritten: the same two limits as `Validation.Validate` (lengths in Dafny characters, a non-null name).
- ApplicationsController.ClassifyCreate: a `CreateAsync` that returns null (the interface declares a non-null result) would throw while building the response and give a 500; that case is not modelled.
- Logging, async/`Task` plumbing, dependency injection, routing, JSON serialization and URL generation for `CreatedAtAction` (modelled as the action name and the id), hosting, the health endpoint, migrations and the web front end.

## Findings

| source | as written | input that shows it | evidently intended | confidence | as-written member | corrected member |
|---|---|---|---|---|---|---|
| svc/Validation/CreateApplicationRequestValidator.cs:15 | .NET's `$` (without `RegexOptions.Multiline`) also matches just before a final `'\n'`, so a name ending in one newline passes the charset check | name `"app\n"`, no description: no validation errors, so the name is stored with a newline | names consist only of `[A-Za-z0-9_-]` (the message says so) | not executed; follows from documented .NET `$` semantics | `Validation.ValidateAsWritten`, `Validation.TrailingNewlineAccepted`, `ApplicationsController.TrailingNewlineReachesRepository` | `Validation.Validate` |
