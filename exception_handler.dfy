/** The global exception handler: which failures become which HTTP responses,
    and how the field errors of a rejected body are joined into one message. */
module ExceptionHandler {

  import opened Results
  import opened Domain
  import opened Constraints
  import opened Requests

  /** The failures that reach the handler. `Other` is every exception class
      the handler has no method for. */
  datatype Failure =
    | MethodArgumentNotValid(fieldErrors: seq<FieldError>)
    | HttpMessageNotReadable(message: string)
    | ResourceNotFoundFailure(message: string)
    | ResourceAlreadyExists(message: string)
    | Other

  /** The response body: status code, title and message. */
  datatype ErrorResponse = ErrorResponse(status: int, error: string, message: string)

  const BadRequest := 400
  const NotFound := 404
  const Conflict := 409

  /** One field error as the client reads it. */
  function Describe(e: FieldError): string {
    e.field + ": " + e.message
  }

  /** The field errors, each described, joined with ", ". */
  function JoinFieldErrors(errs: seq<FieldError>): (s: string)
    ensures errs == [] <==> s == []
    ensures errs != [] ==> s == Describe(errs[0]) + Separated(errs[1..])
  {
    if errs == [] then "" else Describe(errs[0]) + Separated(errs[1..])
  }

  /** Each error's description preceded by the separator. */
  function Separated(errs: seq<FieldError>): (s: string)
    ensures errs == [] <==> s == []
  {
    if errs == [] then "" else ", " + Describe(errs[0]) + Separated(errs[1..])
  }

  lemma {:induction false} SeparatedAppend(a: seq<FieldError>, b: seq<FieldError>)
    ensures Separated(a + b) == Separated(a) + Separated(b)
  {
    if a == [] {
      assert a + b == b;
    } else {
      assert (a + b)[1..] == a[1..] + b;
      SeparatedAppend(a[1..], b);
    }
  }

  /** Joining two non-empty lists joins their joins: the separator appears
      exactly once between the two parts. */
  lemma JoinAppend(a: seq<FieldError>, b: seq<FieldError>)
    requires a != [] && b != []
    ensures JoinFieldErrors(a + b) == JoinFieldErrors(a) + ", " + JoinFieldErrors(b)
  {
    assert (a + b)[1..] == a[1..] + b;
    SeparatedAppend(a[1..], b);
  }

  /** The response for a failure, or none when the handler leaves it to the
      framework's defaults. */
  function Handle(f: Failure): (r: Option<ErrorResponse>)
    ensures r.None? <==> f.Other?
    ensures f.MethodArgumentNotValid? ==>
      r == Some(ErrorResponse(BadRequest, "Validation error", JoinFieldErrors(f.fieldErrors)))
    ensures f.HttpMessageNotReadable? ==> r == Some(ErrorResponse(BadRequest, "Invalid formated Json", f.message))
    ensures f.ResourceNotFoundFailure? ==> r == Some(ErrorResponse(NotFound, "Resource not found", f.message))
    ensures f.ResourceAlreadyExists? ==> r == Some(ErrorResponse(Conflict, "Resource already exists", f.message))
  {
    match f
    case MethodArgumentNotValid(errs) => Some(ErrorResponse(BadRequest, "Validation error", JoinFieldErrors(errs)))
    case HttpMessageNotReadable(m) => Some(ErrorResponse(BadRequest, "Invalid formated Json", m))
    case ResourceNotFoundFailure(m) => Some(ErrorResponse(NotFound, "Resource not found", m))
    case ResourceAlreadyExists(m) => Some(ErrorResponse(Conflict, "Resource already exists", m))
    case Other => None
  }

  /** How a service failure reaches the handler. Only `ResourceNotFound` has a
      handler method of its own; access denial is answered by the security
      framework, and the account exceptions' classes are not part of this
      model. */
  function FailureOf(e: Error): (f: Failure)
    ensures f.ResourceNotFoundFailure? <==> e.ResourceNotFound?
    ensures f.ResourceNotFoundFailure? ==> f.message == e.message
    ensures !e.ResourceNotFound? ==> f == Other
  {
    match e
    case ResourceNotFound(m) => ResourceNotFoundFailure(m)
    case _ => Other
  }

  /** Every "not found" the services raise becomes a 404 carrying the
      service's own message. */
  lemma NotFoundIs404(e: Error)
    requires e.ResourceNotFound?
    ensures Handle(FailureOf(e)) == Some(ErrorResponse(NotFound, "Resource not found", e.message))
  {
  }

  /** A project body rejected by validation is answered 400, and its message
      is empty exactly when nothing was violated; a body with no team gets a
      message that ends with the team's complaint. */
  lemma RejectedProjectRequestIs400(r: ProjectRequest)
    requires !ProjectRequestValid(r)
    ensures var resp := Handle(MethodArgumentNotValid(ProjectRequestViolations(r)));
      resp.Some? && resp.value.status == BadRequest && resp.value.message != []
  {
  }

  /** A team-less request whose other fields are fine gets exactly one
      complaint, about the team. */
  lemma TeamlessRequestMessage(r: ProjectRequest)
    requires r.team == [] && NotBlank(r.title) && SizeWithin(r.title, 0, 50) && SizeWithin(r.description, 0, 50)
    ensures Handle(MethodArgumentNotValid(ProjectRequestViolations(r))).value.message
      == "team" + ": " + "The team must have at least one user"
  {
    var errs := ProjectRequestViolations(r);
    assert errs == [] + [] + [] + [FieldError("team", "The team must have at least one user")];
    assert errs[1..] == [];
  }
}
