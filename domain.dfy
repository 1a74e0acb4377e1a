/** The entities of the task tracker: roles, users, projects and tasks, and the
    failures the services raise.

    Entity references (a project's creator and team, a task's owner and
    responsible users) are held as `User` values; every check in the services
    compares them by `userId`. A project's tasks are not a field of `Project`:
    the JPA mapping `mappedBy = "project"` makes them exactly the tasks whose
    `projectId` is the project's id, so they are derived from the task table. */
module Domain {

  import opened Results
  import Constraints

  /** The closed role enumeration (`ERole`). */
  datatype ERole = USER | ADMIN

  /** A role record; the role table holds one record per `ERole` value. */
  datatype Role = Role(id: int, roleName: ERole)

  /** A registered account. `roles` is the account's role set, listed in the
      set's iteration order. `email` may be absent (the request allows it). */
  datatype User = User(
    userId: int,
    userName: string,
    email: Option<string>,
    password: string,
    roles: seq<Role>)

  /** Task progress; a free enumeration without an enforced transition order. */
  datatype Status = TODO | INPROGRESS | DONE

  /** A task. `dueDate` is a timestamp (minutes on a single clock). `status`
      is a nullable column. `owner` and `projectId` are required, so they are
      not optional here. */
  datatype Task = Task(
    id: int,
    title: Option<string>,
    description: Option<string>,
    dueDate: int,
    status: Option<Status>,
    owner: User,
    usersResponsability: seq<User>,
    projectId: int)

  /** A project with its required creator and its team list. */
  datatype Project = Project(
    id: int,
    title: Option<string>,
    description: Option<string>,
    creator: User,
    team: seq<User>)

  /** The exceptions the core throws. Library-raised `IllegalArgumentException`
      (an unknown enum name, a null id) carries no message here;
      `ConstraintViolation` is the persistence layer refusing to save an
      entity that breaks its declared constraints. */
  datatype Error =
    | ResourceNotFound(message: string)
    | AccessDenied(message: string)
    | UsernameAlreadyExists(message: string)
    | EmailAlreadyExists(message: string)
    | PasswordMismatch(message: string)
    | IllegalArgument
    | UsernameNotFound(userId: int)
    | ConstraintViolation(violations: seq<Constraints.FieldError>)
}
