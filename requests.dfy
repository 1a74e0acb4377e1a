/** The request bodies and their declared constraints. A body that violates a
    constraint never reaches a service: the controller's `@Valid` turns the
    violation list into a validation failure. */
module Requests {

  import opened Results
  import opened Constraints

  /** Body of project creation and full update. An omitted `team` is the
      empty list (the field's initialiser). */
  datatype ProjectRequest = ProjectRequest(
    title: Option<string>,
    description: Option<string>,
    team: seq<int>)

  /** Body of the partial update; an absent field leaves the project's value. */
  datatype ProjectRequestPatch = ProjectRequestPatch(
    title: Option<string>,
    description: Option<string>,
    team: Option<seq<int>>)

  /** Body of task creation; `dueDate` is a timestamp or absent. */
  datatype TaskRequest = TaskRequest(
    title: Option<string>,
    description: Option<string>,
    dueDate: Option<int>)

  /** Body of registration through the user endpoint. */
  datatype UserRequest = UserRequest(
    userName: Option<string>,
    email: Option<string>,
    password: Option<string>,
    passwordConfirm: Option<string>)

  /** Body of registration through the authentication endpoint. */
  datatype UserRegistration = UserRegistration(
    userName: Option<string>,
    email: Option<string>,
    password: Option<string>,
    passwordConfirm: Option<string>)

  // ---------------------------------------------------------------- project

  predicate ProjectRequestValid(r: ProjectRequest) {
    && NotBlank(r.title)
    && SizeWithin(r.title, 0, 50)
    && SizeWithin(r.description, 0, 50)
    && |r.team| > 0
  }

  function ProjectRequestViolations(r: ProjectRequest): (errs: seq<FieldError>)
    ensures errs == [] <==> ProjectRequestValid(r)
    ensures forall e :: e in errs ==> e.field in {"title", "description", "team"}
  {
    Check(NotBlank(r.title), "title", "The title must not be blank")
    + Check(SizeWithin(r.title, 0, 50), "title", "The title must not exceed 50 characters")
    + Check(SizeWithin(r.description, 0, 50), "description", "The description must not exceed 50 characters")
    + Check(|r.team| > 0, "team", "The team must have at least one user")
  }

  /** A request that leaves out the team is rejected for its team. */
  lemma OmittedTeamRejected(r: ProjectRequest)
    requires r.team == []
    ensures FieldError("team", "The team must have at least one user") in ProjectRequestViolations(r)
  {
  }

  /** A request whose title is missing or only blanks is rejected for its title. */
  lemma BlankProjectTitleRejected(r: ProjectRequest)
    requires r.title.None? || forall i :: 0 <= i < |r.title.value| ==> IsTrimmed(r.title.value[i])
    ensures FieldError("title", "The title must not be blank") in ProjectRequestViolations(r)
  {
    if r.title.Some? {
      TrimEmptyIffAllTrimmed(r.title.value);
    }
  }

  // ------------------------------------------------------------------- task

  /** The outcome of validating a body: its violations, or a constraint
      declared on a field of a type no validator of that constraint accepts,
      which aborts validation (`UnexpectedTypeException`). */
  datatype Validation = Checked(violations: seq<FieldError>) | NoValidator(field: string, constraint: string)

  /** Validation of a task body as declared: the due date, a timestamp, carries
      `@NotBlank`, a constraint whose validators accept only character
      sequences, so validation aborts on every body. */
  function TaskRequestValidationAsWritten(r: TaskRequest, now: int): (v: Validation)
    ensures v == NoValidator("dueDate", "NotBlank")
  {
    NoValidator("dueDate", "NotBlank")
  }

  /** The intended constraints on a task body: the due date required
      (`@NotNull`) and strictly in the future. */
  predicate TaskRequestValid(r: TaskRequest, now: int) {
    && SizeWithin(r.title, 0, 50)
    && NotBlank(r.title)
    && SizeWithin(r.description, 0, 250)
    && r.dueDate.Some?
    && InFuture(r.dueDate, now)
  }

  function TaskRequestViolations(r: TaskRequest, now: int): (errs: seq<FieldError>)
    ensures errs == [] <==> TaskRequestValid(r, now)
    ensures forall e :: e in errs ==> e.field in {"title", "description", "dueDate"}
  {
    Check(SizeWithin(r.title, 0, 50), "title", "size must be between 0 and 50")
    + Check(NotBlank(r.title), "title", "O título não pode estar em branco!")
    + Check(SizeWithin(r.description, 0, 250), "description", "size must be between 0 and 250")
    + Check(r.dueDate.Some?, "dueDate", MustNotBeNull)
    + Check(InFuture(r.dueDate, now), "dueDate", "A data de entrega não pode ser no passado!")
  }

  /** As declared, even a body meeting every intended constraint is not
      accepted: validation aborts instead of returning no violations. */
  lemma TaskRequestRefusedAsWritten(now: int)
    ensures var r := TaskRequest(Some("Plan"), None, Some(now + 1));
      TaskRequestViolations(r, now) == [] && !TaskRequestValidationAsWritten(r, now).Checked?
  {
    assert "Plan"[0] > ' ';
    TrimEmptyIffAllTrimmed("Plan");
  }

  /** An accepted task request yields a due date after the instant of the check. */
  lemma TaskRequestDueDateInFuture(r: TaskRequest, now: int)
    requires TaskRequestViolations(r, now) == []
    ensures r.dueDate.Some? && r.dueDate.value > now
  {
  }

  /** A body without a due date is rejected for it, and so is one due now. */
  lemma MissingOrPastDueDateRejected(r: TaskRequest, now: int)
    requires r.dueDate.None? || r.dueDate.value <= now
    ensures exists e :: e in TaskRequestViolations(r, now) && e.field == "dueDate"
  {
    if r.dueDate.None? {
      assert FieldError("dueDate", MustNotBeNull) in TaskRequestViolations(r, now);
    } else {
      assert FieldError("dueDate", "A data de entrega não pode ser no passado!") in TaskRequestViolations(r, now);
    }
  }

  // ------------------------------------------------------------------- user

  /** The fields a user body has. */
  predicate UserField(f: string) {
    f == "userName" || f == "email" || f == "password" || f == "passwordConfirm"
  }

  predicate UserRequestValid(r: UserRequest) {
    && SizeWithin(r.userName, 0, 50)
    && NotBlank(r.userName)
    && SizeWithin(r.email, 0, 250)
    && SizeWithin(r.password, 5, 100)
    && NotBlank(r.password)
    && NotBlank(r.passwordConfirm)
  }

  function UserRequestViolations(r: UserRequest): (errs: seq<FieldError>)
    ensures errs == [] <==> UserRequestValid(r)
    ensures forall e :: e in errs ==> UserField(e.field)
  {
    Check(SizeWithin(r.userName, 0, 50), "userName", "The username must not exceed 50 characters")
    + Check(NotBlank(r.userName), "userName", "The name cannot be blank!")
    + Check(SizeWithin(r.email, 0, 250), "email", "size must be between 0 and 250")
    + Check(SizeWithin(r.password, 5, 100), "password", "The password must contain between 5 and 100 characters")
    + Check(NotBlank(r.password), "password", "The password cannot be blank!")
    + Check(NotBlank(r.passwordConfirm), "passwordConfirm", "The password confirmation cannot be blank!")
  }

  predicate UserRegistrationValid(r: UserRegistration) {
    && SizeWithin(r.userName, 3, 50)
    && NotBlank(r.userName)
    && SizeWithin(r.email, 8, 50)
    && SizeWithin(r.password, 5, 100)
    && NotBlank(r.password)
    && NotBlank(r.passwordConfirm)
  }

  function UserRegistrationViolations(r: UserRegistration): (errs: seq<FieldError>)
    ensures errs == [] <==> UserRegistrationValid(r)
    ensures forall e :: e in errs ==> UserField(e.field)
  {
    Check(SizeWithin(r.userName, 3, 50), "userName", "The username must be between 3 and 50 characters long")
    + Check(NotBlank(r.userName), "userName", "Username must not be blank")
    + Check(SizeWithin(r.email, 8, 50), "email", "Email must not exceed 50 characters")
    + Check(SizeWithin(r.password, 5, 100), "password", "Password must be between 5 and 100 characters long")
    + Check(NotBlank(r.password), "password", "Password must not be blank")
    + Check(NotBlank(r.passwordConfirm), "passwordConfirm", "Password confirmation must not be blank")
  }

  /** The same fields read as a body of the user endpoint. */
  function AsUserRequest(r: UserRegistration): UserRequest {
    UserRequest(r.userName, r.email, r.password, r.passwordConfirm)
  }

  /** The authentication endpoint's bounds are the tighter ones: every body it
      accepts is accepted by the user endpoint as well. */
  lemma RegistrationStricterThanUserRequest(r: UserRegistration)
    requires UserRegistrationViolations(r) == []
    ensures UserRequestViolations(AsUserRequest(r)) == []
  {
  }

  /** The converse fails: a two-character user name passes the user endpoint
      and is refused by the authentication endpoint. */
  lemma ShortUserNameOnlyAcceptedByUserRequest()
    ensures UserRequestViolations(UserRequest(Some("ab"), None, Some("secret"), Some("secret"))) == []
    ensures UserRegistrationViolations(UserRegistration(Some("ab"), None, Some("secret"), Some("secret"))) != []
  {
    assert "ab"[0] > ' ';
    TrimEmptyIffAllTrimmed("ab");
    assert "secret"[0] > ' ';
    TrimEmptyIffAllTrimmed("secret");
  }
}
