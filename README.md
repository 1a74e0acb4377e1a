# Teamtacles API: a Dafny model of its decision logic

Teamtacles is a task tracker. Users belong to project teams, projects own tasks, and tasks have an owner and a list of responsible users. This project models the parts of the service that decide things, and proves what they promise:

- **Project authorization and team building** (module `Projects`, `project_service.dfy`). This covers the administrator test and the view and modify checks. It also covers the project operations (list, get, create, update, patch, delete) of a `ProjectService` class over an in-memory `Database`.
- **Accounts** (module `Users`, `user_service.dfy`). Registration makes its checks in order, then gives the new account the USER role. A role exchange replaces the user's roles with one new role.
- **Principal and token conversion** (module `Principal`, `principal.dfy`). This covers how a user becomes an authenticated principal, and how a verified token's `userId` claim becomes an authentication.
- **Filtered queries** (modules `TaskQueries` and `ProjectQueries`). The JPQL of the task and project repositories is evaluated the way the database does it. Joins produce one row per (task, responsible user) pair, the WHERE clause filters rows, and `DISTINCT` keeps each first occurrence. Each query is proved equal to a plain set-style characterisation.
- **Field validation** (modules `Constraints`, `Entities` and `Requests`). These model the Bean Validation constraints on the entities and on the request bodies. `@NotBlank` is modelled with `trim()` semantics, and `@Size`/`@Future` let null through.
- **Exception handling** (module `ExceptionHandler`). This maps failure kinds to status, title and message, and joins the field errors of a validation failure.

Modelling choices:

- **Database.** The repositories are one class, `Persistence.Database`, holding maps keyed by id. Its `Valid()` predicate says every row is stored under its own id and that generated ids are fresh.
- **Users, roles and dates.** Users are values compared by `userId` wherever the code compares ids. Role sets are sequences in iteration order. Timestamps are integers, and the current instant is a parameter (`now`).
- **Injected collaborators.** The password encoder is a function parameter, so the model states that a stored password is the encoder's output.
- **Failures.** A thrown exception is an `Err` of `Domain.Error` carrying the source's message. A void check that may throw returns an `Outcome`.

## Model

| member | source | states |
|---|---|---|
| Sequences.Distinct | teamtacles-api/src/main/java/com/teamtacles/teamtacles_api/repository/TaskRepository.java:57 | `DISTINCT` keeps exactly the elements of its input, none twice, and is never longer than its input |
| Sequences.DistinctOfDuplicateFree | teamtacles-api/src/main/java/com/teamtacles/teamtacles_api/repository/TaskRepository.java:57 | on a list without duplicates `DISTINCT` changes nothing |
| Sequences.DistinctSnoc | teamtacles-api/src/main/java/com/teamtacles/teamtacles_api/repository/TaskRepository.java:57 | one more element is kept after the others unless it was already kept |
| Constraints.TrimEmptyIffAllTrimmed | teamtacles-api/src/main/java/com/teamtacles/teamtacles_api/model/Task.java:48 | a string is blank for `@NotBlank` exactly when every character is one `trim()` removes (up to U+0020) |
| Persistence.Database.FindUser | teamtacles-api/src/main/java/com/teamtacles/teamtacles_api/repository/UserRepository.java:21 | `findById` finds a user exactly when the id is stored, and the user found carries that id |
| Persistence.Database.FindRole | teamtacles-api/src/main/java/com/teamtacles/teamtacles_api/repository/RoleRepository.java:22 | `findByRoleName` finds a role exactly when one is stored under that name, and the record found has that name |
| Entities.TaskViolations | teamtacles-api/src/main/java/com/teamtacles/teamtacles_api/model/Task.java:47-57 | a task has no violation exactly when its title is present, non-blank and at most 50 characters, its description at most 250, and its due date strictly after now; violations name only those fields |
| Entities.ProjectViolations | teamtacles-api/src/main/java/com/teamtacles/teamtacles_api/model/Project.java:44-49 | a project has no violation exactly when its title is present, non-blank and at most 50 characters and its description at most 50 |
| Entities.TaskDueNowRejected | teamtacles-api/src/main/java/com/teamtacles/teamtacles_api/model/Task.java:54-55 | a task due exactly now is rejected with the due-date message |
| Entities.BlankProjectTitleRejected | teamtacles-api/src/main/java/com/teamtacles/teamtacles_api/model/Project.java:44 | a title of blanks, of any length, is rejected with the title message |
| Requests.ProjectRequestViolations | teamtacles-api/src/main/java/com/teamtacles/teamtacles_api/dto/request/ProjectRequestDTO.java:20-31 | a project body is accepted exactly when its title is non-blank and at most 50 characters, its description at most 50, and its team non-empty |
| Requests.OmittedTeamRejected | teamtacles-api/src/main/java/com/teamtacles/teamtacles_api/dto/request/ProjectRequestDTO.java:30-31 | a body whose team is left at its empty default is rejected with "The team must have at least one user" |
| Requests.BlankProjectTitleRejected | teamtacles-api/src/main/java/com/teamtacles/teamtacles_api/dto/request/ProjectRequestDTO.java:21 | a missing or all-blank title is rejected with "The title must not be blank" |
| Requests.TaskRequestValidationAsWritten | teamtacles-api/src/main/java/com/teamtacles/teamtacles_api/dto/request/TaskRequestDTO.java:28-32 | as declared, validating a task body always aborts, because `@NotBlank` sits on a timestamp field |
| Requests.TaskRequestRefusedAsWritten | teamtacles-api/src/main/java/com/teamtacles/teamtacles_api/dto/request/TaskRequestDTO.java:28-32 | a body meeting every intended constraint is still not accepted as declared |
| Requests.TaskRequestViolations | teamtacles-api/src/main/java/com/teamtacles/teamtacles_api/dto/request/TaskRequestDTO.java:21-29 | with the due date required, a task body is accepted exactly when its title is non-blank and at most 50 characters, its description at most 250, and its due date present and in the future |
| Requests.TaskRequestDueDateInFuture | teamtacles-api/src/main/java/com/teamtacles/teamtacles_api/dto/request/TaskRequestDTO.java:29 | an accepted task body has a due date strictly after the instant of the check |
| Requests.MissingOrPastDueDateRejected | teamtacles-api/src/main/java/com/teamtacles/teamtacles_api/dto/request/TaskRequestDTO.java:28-29 | a body with no due date, or one not in the future, is rejected for its due date |
| Requests.UserRequestViolations | teamtacles-api/src/main/java/com/teamtacles/teamtacles_api/dto/request/UserRequestDTO.java:16-33 | a user body is accepted exactly when the user name is non-blank and at most 50 characters, the email at most 250, the password non-blank with 5 to 100 characters, and the confirmation non-blank |
| Requests.UserRegistrationViolations | teamtacles-api/src/main/java/com/teamtacles/teamtacles_api/dto/authentication/UserRegistrationDTO.java:15-32 | a registration body is accepted exactly when the user name is non-blank with 3 to 50 characters, the email 8 to 50, the password non-blank with 5 to 100, and the confirmation non-blank |
| Requests.RegistrationStricterThanUserRequest | teamtacles-api/src/main/java/com/teamtacles/teamtacles_api/dto/authentication/UserRegistrationDTO.java:16-32 | every body the registration endpoint accepts, the user endpoint accepts too |
| Requests.ShortUserNameOnlyAcceptedByUserRequest | teamtacles-api/src/main/java/com/teamtacles/teamtacles_api/dto/authentication/UserRegistrationDTO.java:16 | the converse fails: a two-character user name passes only the user endpoint |
| TaskQueries.ResponsibleRows | teamtacles-api/src/main/java/com/teamtacles/teamtacles_api/repository/TaskRepository.java:58 | the joined rows of a task are exactly its pairs with each listed user |
| TaskQueries.RowsOf | teamtacles-api/src/main/java/com/teamtacles/teamtacles_api/repository/TaskRepository.java:58 | a left-joined task yields one row per responsible user, or one null row when it has none, never zero rows |
| TaskQueries.LeftJoin | teamtacles-api/src/main/java/com/teamtacles/teamtacles_api/repository/TaskRepository.java:57-58 | the left join holds exactly the rows of the table's tasks |
| TaskQueries.InnerJoin | teamtacles-api/src/main/java/com/teamtacles/teamtacles_api/repository/TaskRepository.java:41 | the inner join holds exactly the (task, responsible user) pairs; a task without responsible users has no row |
| TaskQueries.SelectWhere | teamtacles-api/src/main/java/com/teamtacles/teamtacles_api/repository/TaskRepository.java:59-62 | a task is selected exactly when one of its rows passes the WHERE clause |
| TaskQueries.FilterCriteria | teamtacles-api/src/main/java/com/teamtacles/teamtacles_api/repository/TaskRepository.java:79-81 | keeps exactly the tasks passing every present filter |
| TaskQueries.FindTasksFiltered | teamtacles-api/src/main/java/com/teamtacles/teamtacles_api/repository/TaskRepository.java:77-83 | returns exactly the tasks passing every present filter (status equality, due date as an inclusive upper bound, project id equality), none twice |
| TaskQueries.SelectResponsible | teamtacles-api/src/main/java/com/teamtacles/teamtacles_api/repository/TaskRepository.java:41 | a task is selected exactly when one of its joined rows has the project and the responsible user asked for |
| TaskQueries.FindTasksFilteredByUserSpec | teamtacles-api/src/main/java/com/teamtacles/teamtacles_api/repository/TaskRepository.java:56-64 | the user-filtered query returns exactly the tasks passing every present filter whose owner, or some responsible user, has the given id; none twice |
| TaskQueries.OwnerMatchesWithoutResponsibleUsers | teamtacles-api/src/main/java/com/teamtacles/teamtacles_api/repository/TaskRepository.java:58-62 | thanks to the left join, a task with no responsible users is still found through its owner |
| TaskQueries.FilteredByUserMonotonic | teamtacles-api/src/main/java/com/teamtacles/teamtacles_api/repository/TaskRepository.java:56-64 | turning absent filters into present ones never adds a task |
| TaskQueries.NoUserFilterSameAsFiltered | teamtacles-api/src/main/java/com/teamtacles/teamtacles_api/repository/TaskRepository.java:56-83 | without a user filter both task queries return the same tasks |
| TaskQueries.FindByProjectIdAndUsersResponsabilityIdSpec | teamtacles-api/src/main/java/com/teamtacles/teamtacles_api/repository/TaskRepository.java:41-42 | the responsibility query returns exactly the project's tasks listing the user as responsible |
| TaskQueries.OwnerAloneNotResponsible | teamtacles-api/src/main/java/com/teamtacles/teamtacles_api/repository/TaskRepository.java:41 | owning a task without being listed as responsible does not qualify for the responsibility query |
| ProjectQueries.TasksOf | teamtacles-api/src/main/java/com/teamtacles/teamtacles_api/model/Project.java:51-53 | a project's tasks are exactly the tasks whose project is that project |
| ProjectQueries.PlainRows | teamtacles-api/src/main/java/com/teamtacles/teamtacles_api/repository/ProjectRepository.java:39 | without the responsibility join each task is one row with no user |
| ProjectQueries.Pair | teamtacles-api/src/main/java/com/teamtacles/teamtacles_api/repository/ProjectRepository.java:27 | pairs a project with exactly the given rows |
| ProjectQueries.ProjectJoin | teamtacles-api/src/main/java/com/teamtacles/teamtacles_api/repository/ProjectRepository.java:26-28 | the project join holds exactly the pairs of a project with the rows of its own tasks |
| ProjectQueries.SelectProjects | teamtacles-api/src/main/java/com/teamtacles/teamtacles_api/repository/ProjectRepository.java:29-32 | a project is selected exactly when one of its rows passes the WHERE clause |
| Projects.FindByTeamMatchesTeamScan | teamtacles-api/src/main/java/com/teamtacles/teamtacles_api/repository/ProjectRepository.java:22 | a stored project is returned by `findByTeam` for a user exactly when the service's scan finds that user's id on the project's team, and only stored projects are returned |
| ProjectQueries.ProjectsByUserSound | teamtacles-api/src/main/java/com/teamtacles/teamtacles_api/repository/ProjectRepository.java:25-34 | every listed project owns a single task that passes all present filters and the user filter |
| ProjectQueries.ProjectsByUserComplete | teamtacles-api/src/main/java/com/teamtacles/teamtacles_api/repository/ProjectRepository.java:25-34 | every project owning such a task is listed |
| ProjectQueries.FindProjectsFilteredByUserSpec | teamtacles-api/src/main/java/com/teamtacles/teamtacles_api/repository/ProjectRepository.java:25-34 | the user-filtered project query returns exactly the projects owning a task that passes every present filter (project filter on the project's id) and the user filter; none twice |
| ProjectQueries.FindProjectsFilteredSpec | teamtacles-api/src/main/java/com/teamtacles/teamtacles_api/repository/ProjectRepository.java:37-44 | the filtered project query returns exactly the projects owning a task that passes every present filter; none twice |
| ProjectQueries.ProjectsFollowTasks | teamtacles-api/src/main/java/com/teamtacles/teamtacles_api/repository/ProjectRepository.java:25-34 | a project is listed exactly when the task query with the same filters lists one of its tasks |
| ProjectQueries.ProjectWithoutTasksNeverListed | teamtacles-api/src/main/java/com/teamtacles/teamtacles_api/repository/ProjectRepository.java:25-44 | a project without tasks is never listed by either query, filters or not (inner join on tasks) |
| ProjectQueries.FilteredByUserMonotonic | teamtacles-api/src/main/java/com/teamtacles/teamtacles_api/repository/ProjectRepository.java:29-32 | adding filters never lists an extra project |
| ProjectQueries.NoUserFilterSameAsFiltered | teamtacles-api/src/main/java/com/teamtacles/teamtacles_api/repository/ProjectRepository.java:25-44 | without a user filter both project queries list the same projects |
| Projects.IsAdm | teamtacles-api/src/main/java/com/teamtacles/teamtacles_api/service/ProjectService.java:215-217 | a user is an administrator exactly when one of their roles is named ADMIN |
| Projects.AnyAdmin | teamtacles-api/src/main/java/com/teamtacles/teamtacles_api/service/ProjectService.java:216 | the role scan finds ADMIN exactly when some role has that name |
| Projects.AnyMemberWithId | teamtacles-api/src/main/java/com/teamtacles/teamtacles_api/service/ProjectService.java:204 | the team scan succeeds exactly when some member has the id |
| Projects.EnsureUserCanViewProject | teamtacles-api/src/main/java/com/teamtacles/teamtacles_api/service/ProjectService.java:203-207 | viewing passes exactly for administrators and team members (matched by id); otherwise access is denied with the view message |
| Projects.EnsureUserCanAccessProject | teamtacles-api/src/main/java/com/teamtacles/teamtacles_api/service/ProjectService.java:220-224 | a refused modification is denied with the modify message |
| Projects.AccessOnlyAdminOrCreator | teamtacles-api/src/main/java/com/teamtacles/teamtacles_api/service/ProjectService.java:220-224 | modification passes exactly for administrators and the creator (by id) |
| Projects.MemberNotCreatorDenied | teamtacles-api/src/main/java/com/teamtacles/teamtacles_api/service/ProjectService.java:203-224 | a team member who is neither creator nor administrator may view the project but not modify it |
| Projects.AccessImpliesView | teamtacles-api/src/main/java/com/teamtacles/teamtacles_api/service/ProjectService.java:203-224 | while the creator is on the team, whoever may modify a project may view it |
| Projects.AuthorizeModification | teamtacles-api/src/main/java/com/teamtacles/teamtacles_api/service/ProjectService.java:141-144 | a missing project is "not found" whoever asks; an existing one is returned to administrators and its creator, and access is denied to others |
| Projects.Resolved | teamtacles-api/src/main/java/com/teamtacles/teamtacles_api/service/ProjectService.java:112-115 | the requested ids resolve, in order, to the stored users |
| Projects.ResolvedSnoc | teamtacles-api/src/main/java/com/teamtacles/teamtacles_api/service/ProjectService.java:112-115 | resolving one more id appends that id's user to those already resolved |
| Projects.TeamIntendedProperties | teamtacles-api/src/main/java/com/teamtacles/teamtacles_api/service/ProjectService.java:105-124 | the team built for a new project holds the creator and every requested member, nobody else, and nobody twice |
| Projects.TeamAsWritten | teamtacles-api/src/main/java/com/teamtacles/teamtacles_api/service/ProjectService.java:108-119 | the team as the code builds it: every requested id's user in request order, repeats included, then the creator if absent; the creator is always on it |
| Projects.TeamIntended | teamtacles-api/src/main/java/com/teamtacles/teamtacles_api/service/ProjectService.java:105-124 | the team as the comments describe it always holds the creator and is at most one longer than the request |
| Projects.CreatorOnceInTeam | teamtacles-api/src/main/java/com/teamtacles/teamtacles_api/service/ProjectService.java:117-119 | the creator is on the new team exactly once |
| Projects.AsWrittenAgreesOnDistinctRequests | teamtacles-api/src/main/java/com/teamtacles/teamtacles_api/service/ProjectService.java:108-119 | when no id is requested twice, the team the code builds equals the intended one |
| Projects.RepeatedIdRepeatsMember | teamtacles-api/src/main/java/com/teamtacles/teamtacles_api/service/ProjectService.java:108-119 | as written, requesting the same id twice puts that member on the team twice, so the team has a duplicate |
| Projects.RepeatedIdKeepsMemberOnce | teamtacles-api/src/main/java/com/teamtacles/teamtacles_api/service/ProjectService.java:108-119 | the intended team for the same request holds that member once, then the creator |
| Projects.UpdatesKeepPermissions | teamtacles-api/src/main/java/com/teamtacles/teamtacles_api/service/ProjectService.java:131-149 | full and partial updates keep creator and team, so they keep the creator on the team and leave who may view or modify unchanged |
| Projects.EmptyPatchKeepsFields | teamtacles-api/src/main/java/com/teamtacles/teamtacles_api/service/ProjectService.java:171-174 | a patch with no fields changes nothing but the id |
| Projects.Updated | teamtacles-api/src/main/java/com/teamtacles/teamtacles_api/service/ProjectService.java:146-148 | a full update takes the body's title and description and the path id, and keeps the creator and the team |
| Projects.Patched | teamtacles-api/src/main/java/com/teamtacles/teamtacles_api/service/ProjectService.java:171-173 | a partial update replaces a field only when the patch carries it, takes the path id, and keeps the creator and the team |
| Projects.Validated | teamtacles-api/src/main/java/com/teamtacles/teamtacles_api/service/ProjectService.java:151 | the save stores a project exactly when it meets the entity's constraints (`Project.java:44-49`), and otherwise fails with the non-empty list of its violations |
| Projects.UpdateResult | teamtacles-api/src/main/java/com/teamtacles/teamtacles_api/service/ProjectService.java:140-153 | a full update fails as the lookup or the modify check fails, before anything is mapped; otherwise it is the save's verdict on the updated project |
| Projects.PatchResult | teamtacles-api/src/main/java/com/teamtacles/teamtacles_api/service/ProjectService.java:165-178 | a partial update fails as the lookup or the modify check fails; otherwise it is the save's verdict on the patched project |
| Projects.ValidatedUpdateSaves | teamtacles-api/src/main/java/com/teamtacles/teamtacles_api/model/Project.java:44-49 | a full update from a body that passed the request's validation meets the entity's constraints, so its save is never refused |
| Projects.BlankPatchTitleRefused | teamtacles-api/src/main/java/com/teamtacles/teamtacles_api/model/Project.java:44-46 | a patch with a present but blank title yields a project the save refuses, with the entity's title message |
| Projects.LongPatchDescriptionRefused | teamtacles-api/src/main/java/com/teamtacles/teamtacles_api/model/Project.java:48-49 | a patch with a description over 50 characters yields a project the save refuses for its description |
| Projects.BoundedPatchSaves | teamtacles-api/src/main/java/com/teamtacles/teamtacles_api/model/Project.java:44-49 | a patch whose present fields meet the entity's bounds keeps a valid stored project valid |
| Projects.ProjectService.GetAllProjects | teamtacles-api/src/main/java/com/teamtacles/teamtacles_api/service/ProjectService.java:64-77 | the listing is drawn from the stored projects |
| Projects.ProjectService.ListingMatchesViewCheck | teamtacles-api/src/main/java/com/teamtacles/teamtacles_api/service/ProjectService.java:64-77 | a stored project is listed exactly when the caller may view it |
| Projects.ProjectService.ListingExtremes | teamtacles-api/src/main/java/com/teamtacles/teamtacles_api/service/ProjectService.java:64-76 | an administrator lists every project; a non-administrator on no team lists none |
| Projects.ProjectService.GetProjectById | teamtacles-api/src/main/java/com/teamtacles/teamtacles_api/service/ProjectService.java:87-94 | a missing id is "not found" before any check; a stored project is returned exactly when the caller may view it, otherwise access is denied |
| Projects.ProjectService.FindUsers | teamtacles-api/src/main/java/com/teamtacles/teamtacles_api/service/ProjectService.java:209-212 | returns the stored user with that id, or fails with "user Not found." |
| Projects.ProjectService.BuildTeam | teamtacles-api/src/main/java/com/teamtacles/teamtacles_api/service/ProjectService.java:109-115 | fails exactly when some requested id does not resolve; otherwise returns the resolved members without repeats, in request order |
| Projects.ProjectService.CreateProject | teamtacles-api/src/main/java/com/teamtacles/teamtacles_api/service/ProjectService.java:105-128 | fails with "user Not found.", saving nothing, exactly when the caller or a requested member does not resolve; otherwise stores under a fresh id a project created by the caller with the intended team |
| Projects.ProjectService.UpdateProject | teamtacles-api/src/main/java/com/teamtacles/teamtacles_api/service/ProjectService.java:140-153 | on a failed lookup or check nothing changes; a result that breaks the entity's constraints is refused at the save with those violations and nothing is stored; otherwise the stored project takes the body's title and description and keeps its id, creator and team; the id counters are untouched |
| Projects.ProjectService.PartialUpdateProject | teamtacles-api/src/main/java/com/teamtacles/teamtacles_api/service/ProjectService.java:165-178 | on a failed lookup or check nothing changes; a patched project that breaks the entity's constraints (`Project.java:44-49`) is refused at the save with those violations and nothing is stored; otherwise present fields replace the stored ones, and id, creator and team are kept; the id counters are untouched |
| Projects.ProjectService.DeleteProject | teamtacles-api/src/main/java/com/teamtacles/teamtacles_api/service/ProjectService.java:187-194 | on a failed lookup or check nothing changes; otherwise the project and every task it owns are removed and nothing else is |
| Users.ParseRole | teamtacles-api/src/main/java/com/teamtacles/teamtacles_api/service/UserService.java:70 | a name parses exactly when it is "USER" or "ADMIN" |
| Users.ParseRoleInvertsName | teamtacles-api/src/main/java/com/teamtacles/teamtacles_api/service/UserService.java:70 | parsing a role's name gives the role back, and a name parses to a role only if it is that role's name |
| Users.UpperChar | teamtacles-api/src/main/java/com/teamtacles/teamtacles_api/service/UserService.java:70 | lower-case ASCII letters become their capitals; every other character is unchanged |
| Users.ToUpper | teamtacles-api/src/main/java/com/teamtacles/teamtacles_api/service/UserService.java:70 | upper-casing keeps the length and upper-cases each character |
| Users.ToUpperIdempotent | teamtacles-api/src/main/java/com/teamtacles/teamtacles_api/service/UserService.java:70 | upper-casing twice is upper-casing once |
| Users.RoleNameCaseInsensitive | teamtacles-api/src/main/java/com/teamtacles/teamtacles_api/service/UserService.java:70 | "admin" and "Admin" name ADMIN, "user" names USER, and "superuser" names no role |
| Users.Register | teamtacles-api/src/main/java/com/teamtacles/teamtacles_api/service/UserService.java:43-62 | the failures come in order: a taken user name, then a taken email, then a mismatched confirmation, then a missing USER role; registration succeeds exactly when none of these applies. A new account has the requested name and email, the encoder's output as password, and exactly the USER role |
| Users.RegisterKeepsUnique | teamtacles-api/src/main/java/com/teamtacles/teamtacles_api/service/UserService.java:44-49 | registration keeps user names and emails unique across accounts |
| Users.UserNameCheckedFirst | teamtacles-api/src/main/java/com/teamtacles/teamtacles_api/service/UserService.java:44-52 | a taken user name is reported even when the email is taken and the passwords differ |
| Users.ExchangeRoleResult | teamtacles-api/src/main/java/com/teamtacles/teamtacles_api/service/UserService.java:66-78 | an unknown user is "not found" before the name is parsed; an unknown name is an illegal argument; a missing role record is "not found"; the exchange succeeds exactly when the user, the parsed name and its role record all exist, and then the user's roles become the new role alone |
| Users.ExchangeReplacesRoles | teamtacles-api/src/main/java/com/teamtacles/teamtacles_api/service/UserService.java:73-75 | after an exchange the user holds exactly one role, the one named, and the rest of the account is unchanged |
| Users.UserService.CreateUser | teamtacles-api/src/main/java/com/teamtacles/teamtacles_api/service/UserService.java:43-63 | on failure nothing is stored; on success the new account is stored under a fresh id, and user names and emails stay unique |
| Users.UserService.ExchangeRole | teamtacles-api/src/main/java/com/teamtacles/teamtacles_api/service/UserService.java:66-78 | on failure nothing changes; on success only that user's roles change |
| Principal.AuthorityRole | teamtacles-api/src/main/java/com/teamtacles/teamtacles_api/model/UserAuthenticated.java:38 | a string denotes a role only when it is exactly "ROLE_" followed by that role's name |
| Principal.AuthorityRoundTrip | teamtacles-api/src/main/java/com/teamtacles/teamtacles_api/model/UserAuthenticated.java:38 | a role's authority names that role back |
| Principal.UserAuthenticated.GetUser | teamtacles-api/src/main/java/com/teamtacles/teamtacles_api/model/UserAuthenticated.java:27-33 | the principal returns exactly the user it wraps |
| Principal.UserAuthenticated.GetAuthorities | teamtacles-api/src/main/java/com/teamtacles/teamtacles_api/model/UserAuthenticated.java:35-40 | one authority per role, in role order, each naming its role |
| Principal.AuthoritiesOf | teamtacles-api/src/main/java/com/teamtacles/teamtacles_api/model/UserAuthenticated.java:37-39 | the i-th authority is "ROLE_" followed by the i-th role's name |
| Principal.UserAuthenticated.GetPassword | teamtacles-api/src/main/java/com/teamtacles/teamtacles_api/model/UserAuthenticated.java:42-45 | the password is the stored hash |
| Principal.UserAuthenticated.GetUsername | teamtacles-api/src/main/java/com/teamtacles/teamtacles_api/model/UserAuthenticated.java:47-50 | the user name is the account's user name |
| Principal.AccountAlwaysUsable | teamtacles-api/src/main/java/com/teamtacles/teamtacles_api/model/UserAuthenticated.java:52-70 | all four account-status flags hold for every principal |
| Principal.AdminIffAdminAuthority | teamtacles-api/src/main/java/com/teamtacles/teamtacles_api/model/UserAuthenticated.java:35-40 | the service's administrator test holds exactly when "ROLE_ADMIN" is among the principal's authorities |
| Principal.ExchangedUserAuthorities | teamtacles-api/src/main/java/com/teamtacles/teamtacles_api/model/UserAuthenticated.java:36-39 | after a role exchange the user's authorities are the new role's authority alone, recomputed from the current roles |
| Principal.ExtractUser | teamtacles-api/src/main/java/com/teamtacles/teamtacles_api/security/CustomJwtAuthenticationConverter.java:32-37 | a missing claim is an illegal argument; an unknown id fails with `UsernameNotFoundException` for that id; a known id yields a principal wrapping exactly that user |
| Principal.Convert | teamtacles-api/src/main/java/com/teamtacles/teamtacles_api/security/CustomJwtAuthenticationConverter.java:25-30 | conversion succeeds exactly when the claim names a stored user. The token is authenticated, has no credentials, wraps that user, and grants exactly the principal's authorities |
| Principal.ConvertedAdminAuthority | teamtacles-api/src/main/java/com/teamtacles/teamtacles_api/security/CustomJwtAuthenticationConverter.java:27-29 | a converted token grants "ROLE_ADMIN" exactly when the service treats the user as an administrator |
| ExceptionHandler.JoinFieldErrors | teamtacles-api/src/main/java/com/teamtacles/teamtacles_api/exception/GlobalExceptionHandler.java:21-22 | the joined message is empty exactly when there are no errors, and otherwise begins with the first error's "field: message" |
| ExceptionHandler.Separated | teamtacles-api/src/main/java/com/teamtacles/teamtacles_api/exception/GlobalExceptionHandler.java:22 | the separated tail is empty exactly when there is nothing to separate |
| ExceptionHandler.SeparatedAppend | teamtacles-api/src/main/java/com/teamtacles/teamtacles_api/exception/GlobalExceptionHandler.java:22 | separating a concatenation concatenates the separations |
| ExceptionHandler.JoinAppend | teamtacles-api/src/main/java/com/teamtacles/teamtacles_api/exception/GlobalExceptionHandler.java:21-22 | joining two non-empty error lists puts exactly one ", " between their joins |
| ExceptionHandler.Handle | teamtacles-api/src/main/java/com/teamtacles/teamtacles_api/exception/GlobalExceptionHandler.java:19-51 | validation failures give 400 "Validation error" with the joined field errors; unreadable JSON gives 400 "Invalid formated Json"; not found gives 404 "Resource not found"; already exists gives 409 "Resource already exists"; anything else is left to the framework |
| ExceptionHandler.FailureOf | teamtacles-api/src/main/java/com/teamtacles/teamtacles_api/exception/GlobalExceptionHandler.java:38-43 | exactly the services' "not found" failures reach the 404 handler, keeping their message |
| ExceptionHandler.NotFoundIs404 | teamtacles-api/src/main/java/com/teamtacles/teamtacles_api/exception/GlobalExceptionHandler.java:38-43 | every "not found" a service raises is answered 404 with the service's message |
| ExceptionHandler.RejectedProjectRequestIs400 | teamtacles-api/src/main/java/com/teamtacles/teamtacles_api/exception/GlobalExceptionHandler.java:19-26 | a rejected project body is answered 400 with a non-empty message |
| ExceptionHandler.TeamlessRequestMessage | teamtacles-api/src/main/java/com/teamtacles/teamtacles_api/exception/GlobalExceptionHandler.java:21-24 | a body whose only fault is its missing team gets the message "team: The team must have at least one user" |

## Left out

- Pagination, sorting and the paged-response mapping are not modelled. Queries return whole lists, and `getAllProjects` returns a set.
- The object mapping between request bodies, entities and response bodies is not modelled. This is a library mapper, and its configuration is not part of this model. Updates follow the service's comments: the body's title and description replace the project's, and a partial update replaces only the fields present in the body. The service's comment says the creator and the team are kept. Whether the mapper overwrites them is not modelled, and the model follows the comment. The calls at `ProjectService.java:146-148` and `:171-173` set each of those fields to its own current value, so they restore nothing the mapper may have written. The patch body's own description says a present team replaces the team; the model keeps it, as the comment says.
- Projects.ProjectService.CreateProject: the save-time entity validation is not modelled on creation. The controller validates the body first, and a validated body meets the entity's title and description constraints (`Projects.ValidatedUpdateSaves` proves this for the same fields). The two update methods do model it.
- `Projects.ProjectService.CreateProject` tests whether the creator is already on the team with entity equality. The model uses value equality of users, which for users loaded in one request is the same as comparing ids.
- Users.ToUpper: only ASCII letters are upper-cased. Java's locale-sensitive `toUpperCase` also maps some non-ASCII letters, for example the dotless ı to I. So a few spellings Java accepts as a role name are refused by the model.
- Lengths count UTF-16 code units in Java and characters here. Text outside the Basic Multilingual Plane is measured differently.
- The `@Email` format check is not modelled, because it depends on the validator library's pattern. Only lengths and blankness are checked.
- The order in which Bean Validation reports field errors is unspecified. The model lists them in declaration order.
- Users.UserService.CreateUser requires the user name and the password to be present. The controller validates the body first (`@NotBlank` on both), and a null password would raise a null-pointer exception the model does not represent.
- The administrator-only guard on role exchange and user listing is a controller annotation. It is not a precondition of `Users.UserService.ExchangeRole`. Listing users is paging over the user table and is not modelled.
- The classes of the account exceptions (username taken, email taken, password mismatch) are not part of this model. The handler therefore treats them as unhandled, although the controller tests expect 409 and 400 for them. Access denial is answered by the security framework, outside the handler.
- Principal.ExtractUser: a claim of the wrong numeric type (an `Integer` where a `Long` is read) is not modelled.
- Issuing and signing tokens, password hashing itself, clocks, transactions, concurrent requests and the HTTP layer are left out. The encoder and the current instant are parameters.
- Task authorization and the task service are not part of this model. The task service in this repository is a stub.

## Findings

| source | as written | input that shows it | evidently intended | confidence | as-written member | corrected member |
|---|---|---|---|---|---|---|
| teamtacles-api/src/main/java/com/teamtacles/teamtacles_api/service/ProjectService.java:108-119 | the team is built in a `List`, and every resolved id is appended even if it is already there | request team `[2, 2]` from caller 1: the team becomes `[u2, u2, u1]` | the comments say a `Set` avoids duplicates, so each member should appear once: `[u2, u1]` | high; not executed | Projects.RepeatedIdRepeatsMember | Projects.ProjectService.BuildTeam |
| teamtacles-api/src/main/java/com/teamtacles/teamtacles_api/dto/request/TaskRequestDTO.java:28-32 | `@NotBlank` is declared on the `LocalDateTime` due date, and that constraint has validators only for character sequences, so validating any task body aborts (`UnexpectedTypeException`) | any body, for example title "Plan" with a due date one minute from now | the due date is required (`@NotNull`) and in the future | medium; not executed | Requests.TaskRequestRefusedAsWritten | Requests.TaskRequestViolations |
