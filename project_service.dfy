/** The project service: the permission checks on projects and the project
    operations (list, get, create, update, patch, delete) over the database. */
module Projects {

  import opened Results
  import opened Domain
  import opened Sequences
  import opened Requests
  import opened Constraints
  import opened Entities
  import opened Persistence
  import ProjectQueries

  const ProjectNotFound := "project Not found."
  const UserNotFound := "user Not found."
  const CannotView := "You do not have permission to access this resource."
  const CannotModify := " FORBIDDEN - You do not have permission to modify this project."

  // ------------------------------------------------------- permission checks

  /** `isADM`: the stream's `anyMatch` over the role set, comparing the role
      name by value. */
  predicate IsAdm(u: User)
    ensures IsAdm(u) <==> exists i :: 0 <= i < |u.roles| && u.roles[i].roleName == ADMIN
  {
    AnyAdmin(u.roles)
  }

  function AnyAdmin(roles: seq<Role>): (b: bool)
    ensures b <==> exists i :: 0 <= i < |roles| && roles[i].roleName == ADMIN
  {
    if roles == [] then false
    else roles[0].roleName == ADMIN || AnyAdmin(roles[1..])
  }

  /** The team's `anyMatch` on the member id. */
  function AnyMemberWithId(team: seq<User>, id: int): (b: bool)
    ensures b <==> exists i :: 0 <= i < |team| && team[i].userId == id
  {
    if team == [] then false
    else team[0].userId == id || AnyMemberWithId(team[1..], id)
  }

  /** The repository's `findByTeam` and the service's team scan agree: a
      stored project is found for a user exactly when the scan finds that
      user's id on its team. */
  lemma {:induction false} FindByTeamMatchesTeamScan(projects: set<Project>, user: User)
    ensures forall p :: p in projects ==>
      (p in ProjectQueries.FindByTeam(projects, user) <==> AnyMemberWithId(p.team, user.userId))
    ensures ProjectQueries.FindByTeam(projects, user) <= projects
  {
    forall p | p in projects
      ensures p in ProjectQueries.FindByTeam(projects, user) <==> AnyMemberWithId(p.team, user.userId)
    {
      if AnyMemberWithId(p.team, user.userId) {
        var i :| 0 <= i < |p.team| && p.team[i].userId == user.userId;
        assert p.team[i] in p.team;
      }
    }
  }

  /** `ensureUserCanViewProject`: admins and team members (matched by id) pass;
      everyone else is denied. */
  function EnsureUserCanViewProject(project: Project, user: User): (r: Outcome<Error>)
    ensures r.Pass? <==>
      IsAdm(user) || exists i :: 0 <= i < |project.team| && project.team[i].userId == user.userId
    ensures r.Fail? ==> r.error == AccessDenied(CannotView)
  {
    if !IsAdm(user) && !AnyMemberWithId(project.team, user.userId) then Fail(AccessDenied(CannotView))
    else Pass
  }

  /** `ensureUserCanAccessProject`: the check before update, patch and delete. */
  function EnsureUserCanAccessProject(project: Project, user: User): (r: Outcome<Error>)
    ensures r.Fail? ==> r.error == AccessDenied(CannotModify)
  {
    if !IsAdm(user) && project.creator.userId != user.userId then Fail(AccessDenied(CannotModify))
    else Pass
  }

  /** Modification is reserved to admins and the creator; team membership is
      not enough. */
  lemma AccessOnlyAdminOrCreator(project: Project, user: User)
    ensures EnsureUserCanAccessProject(project, user).Pass? <==>
      (exists i :: 0 <= i < |user.roles| && user.roles[i].roleName == ADMIN)
      || project.creator.userId == user.userId
  {
  }

  /** A team member who did not create the project may view it and may not
      modify it. */
  lemma MemberNotCreatorDenied(project: Project, user: User)
    requires !IsAdm(user) && user in project.team && project.creator.userId != user.userId
    ensures EnsureUserCanViewProject(project, user).Pass?
    ensures EnsureUserCanAccessProject(project, user) == Fail(AccessDenied(CannotModify))
  {
    var i :| 0 <= i < |project.team| && project.team[i] == user;
  }

  /** The project's creator is on its team. */
  ghost predicate CreatorInTeam(p: Project) {
    exists i :: 0 <= i < |p.team| && p.team[i].userId == p.creator.userId
  }

  /** While the creator is on the team, whoever may modify a project may view it. */
  lemma AccessImpliesView(project: Project, user: User)
    requires CreatorInTeam(project)
    requires EnsureUserCanAccessProject(project, user).Pass?
    ensures EnsureUserCanViewProject(project, user).Pass?
  {
  }

  // ------------------------------------------------- lookups before checks

  /** Look the project up, then check the caller may modify it: a missing id is
      reported before any permission check, whoever the caller is. */
  function AuthorizeModification(projects: map<int, Project>, id: int, user: User): (r: Result<Project, Error>)
    ensures id !in projects ==> r == Err(ResourceNotFound(ProjectNotFound))
    ensures r.Ok? ==> id in projects && r.value == projects[id]
    ensures id in projects && IsAdm(user) ==> r == Ok(projects[id])
    ensures id in projects && !IsAdm(user) ==>
      r == if projects[id].creator.userId == user.userId then Ok(projects[id]) else Err(AccessDenied(CannotModify))
  {
    if id !in projects then Err(ResourceNotFound(ProjectNotFound))
    else
      match EnsureUserCanAccessProject(projects[id], user)
      case Fail(e) => Err(e)
      case Pass => Ok(projects[id])
  }

  // ---------------------------------------------------------- team building

  /** The request's user ids resolved against the user table, in order. */
  function Resolved(users: map<int, User>, ids: seq<int>): (r: seq<User>)
    requires forall i :: 0 <= i < |ids| ==> ids[i] in users
    ensures |r| == |ids| && forall i :: 0 <= i < |ids| ==> r[i] == users[ids[i]]
  {
    if ids == [] then [] else Resolved(users, ids[..|ids| - 1]) + [users[ids[|ids| - 1]]]
  }

  /** Resolving one more id appends its user. */
  lemma ResolvedSnoc(users: map<int, User>, ids: seq<int>, k: int)
    requires 0 <= k < |ids| && forall i :: 0 <= i <= k ==> ids[i] in users
    ensures Resolved(users, ids[..k + 1]) == Resolved(users, ids[..k]) + [users[ids[k]]]
  {
    assert ids[..k + 1][..k] == ids[..k];
  }

  /** The creator is appended when the list does not already contain it. */
  function WithCreator(team: seq<User>, creator: User): seq<User> {
    if creator in team then team else team + [creator]
  }

  /** The team `createProject` builds as written: every resolved id in request
      order, a repeated id repeating the member. */
  function TeamAsWritten(users: map<int, User>, ids: seq<int>, creator: User): (t: seq<User>)
    requires forall i :: 0 <= i < |ids| ==> ids[i] in users
    ensures creator in t
    ensures |ids| <= |t| <= |ids| + 1
    ensures forall i :: 0 <= i < |ids| ==> t[i] == users[ids[i]]
  {
    WithCreator(Resolved(users, ids), creator)
  }

  /** The team `createProject` is meant to build: each requested member once,
      in first-request order, then the creator if absent. */
  function TeamIntended(users: map<int, User>, ids: seq<int>, creator: User): (t: seq<User>)
    requires forall i :: 0 <= i < |ids| ==> ids[i] in users
    ensures creator in t
    ensures |t| <= |ids| + 1
  {
    WithCreator(Distinct(Resolved(users, ids)), creator)
  }

  /** The intended team holds the creator, every requested member, nobody
      else, and nobody twice. */
  lemma TeamIntendedProperties(users: map<int, User>, ids: seq<int>, creator: User)
    requires forall i :: 0 <= i < |ids| ==> ids[i] in users
    ensures var team := TeamIntended(users, ids, creator);
      && creator in team
      && (forall i :: 0 <= i < |ids| ==> users[ids[i]] in team)
      && (forall m :: m in team ==> m == creator || exists i :: 0 <= i < |ids| && users[ids[i]] == m)
      && NoDuplicates(team)
  {
    var resolved := Resolved(users, ids);
    var d := Distinct(resolved);
    forall i | 0 <= i < |ids| ensures users[ids[i]] in d {
      assert resolved[i] == users[ids[i]];
    }
    if creator !in d {
      var team := d + [creator];
      forall i, j | 0 <= i < j < |team| ensures team[i] != team[j] {
        if j == |d| { assert team[i] in d; }
      }
    }
  }

  /** The creator ends up on the team exactly once. */
  lemma CreatorOnceInTeam(users: map<int, User>, ids: seq<int>, creator: User)
    requires forall i :: 0 <= i < |ids| ==> ids[i] in users
    ensures multiset(TeamIntended(users, ids, creator))[creator] == 1
  {
    TeamIntendedProperties(users, ids, creator);
    var team := TeamIntended(users, ids, creator);
    NoDuplicatesCountsOne(team, creator);
  }

  lemma {:induction false} NoDuplicatesCountsOne<T>(s: seq<T>, x: T)
    requires NoDuplicates(s) && x in s
    ensures multiset(s)[x] == 1
  {
    var last := s[|s| - 1];
    var init := s[..|s| - 1];
    assert s == init + [last];
    assert NoDuplicates(init);
    if x == last {
      assert x !in init;
    } else {
      NoDuplicatesCountsOne(init, x);
    }
  }

  /** When the request names each member once, the code as written and the
      intended team coincide. */
  lemma AsWrittenAgreesOnDistinctRequests(users: map<int, User>, ids: seq<int>, creator: User)
    requires forall i :: 0 <= i < |ids| ==> ids[i] in users
    requires NoDuplicates(Resolved(users, ids))
    ensures TeamAsWritten(users, ids, creator) == TeamIntended(users, ids, creator)
  {
    DistinctOfDuplicateFree(Resolved(users, ids));
  }

  /** Requesting id 2 twice resolves to its user twice. */
  lemma ResolvedTwice(users: map<int, User>, member: User)
    requires 2 in users && users[2] == member
    ensures Resolved(users, [2, 2]) == [member, member]
  {
    var ids := [2, 2];
    ResolvedSnoc(users, ids, 0);
    ResolvedSnoc(users, ids, 1);
    assert ids[..0] == [] && ids[..2] == ids;
  }

  /** `DISTINCT` collapses a repeated element. */
  lemma DistinctTwice(member: User)
    ensures Distinct([member, member]) == [member]
  {
    assert [member, member][..1] == [member];
    assert [member][..0] == [];
    assert Distinct([member]) == [member];
  }

  /** A creator missing from the team is appended after it. */
  lemma CreatorAppended(team: seq<User>, creator: User)
    requires forall i :: 0 <= i < |team| ==> team[i] != creator
    ensures WithCreator(team, creator) == team + [creator]
  {
  }

  /** Resolving id 2 twice and dropping repeats leaves its user once. */
  lemma DistinctResolvedTwice(users: map<int, User>, member: User)
    requires 2 in users && users[2] == member
    ensures Distinct(Resolved(users, [2, 2])) == [member]
  {
    ResolvedTwice(users, member);
    DistinctTwice(member);
  }

  /** As written, a request that repeats an id puts that member on the team
      twice: the list is not the set its comments describe. */
  lemma RepeatedIdRepeatsMember(users: map<int, User>, member: User, creator: User)
    requires 2 in users && users[2] == member && member != creator
    ensures TeamAsWritten(users, [2, 2], creator) == [member, member, creator]
    ensures !NoDuplicates(TeamAsWritten(users, [2, 2], creator))
  {
    ResolvedTwice(users, member);
    assert creator !in [member, member];
    var team := TeamAsWritten(users, [2, 2], creator);
    assert team == [member, member] + [creator];
    assert team[0] == team[1];
  }

  /** The intended team holds the repeated member once. */
  lemma RepeatedIdKeepsMemberOnce(users: map<int, User>, member: User, creator: User)
    requires 2 in users && users[2] == member && member != creator
    ensures TeamIntended(users, [2, 2], creator) == [member, creator]
  {
    DistinctResolvedTwice(users, member);
    CreatorAppended([member], creator);
  }

  // ------------------------------------------------------- project updates

  /** `updateProject`'s new state: the request's title and description, the
      path id, and the project's own creator and team. */
  function Updated(p: Project, id: int, dto: ProjectRequest): (q: Project)
    ensures q.id == id && q.creator == p.creator && q.team == p.team
    ensures q.title == dto.title && q.description == dto.description
  {
    p.(id := id, title := dto.title, description := dto.description)
  }

  /** `partialUpdateProject`'s new state: each present field replaces the
      project's, absent ones keep it; creator and team are kept. */
  function Patched(p: Project, id: int, patch: ProjectRequestPatch): (q: Project)
    ensures q.id == id && q.creator == p.creator && q.team == p.team
    ensures q.title == if patch.title.Some? then patch.title else p.title
    ensures q.description == if patch.description.Some? then patch.description else p.description
  {
    p.(id := id,
       title := if patch.title.Some? then patch.title else p.title,
       description := if patch.description.Some? then patch.description else p.description)
  }

  /** Neither update touches the creator or the team, so both keep the creator
      on the team and keep the same callers allowed to view and modify. */
  lemma UpdatesKeepPermissions(p: Project, id: int, dto: ProjectRequest, patch: ProjectRequestPatch, user: User)
    ensures CreatorInTeam(p) ==> CreatorInTeam(Updated(p, id, dto)) && CreatorInTeam(Patched(p, id, patch))
    ensures EnsureUserCanViewProject(Updated(p, id, dto), user) == EnsureUserCanViewProject(p, user)
    ensures EnsureUserCanAccessProject(Patched(p, id, patch), user) == EnsureUserCanAccessProject(p, user)
    ensures EnsureUserCanViewProject(Patched(p, id, patch), user) == EnsureUserCanViewProject(p, user)
    ensures EnsureUserCanAccessProject(Updated(p, id, dto), user) == EnsureUserCanAccessProject(p, user)
  {
  }

  /** An empty patch only rewrites the id. */
  lemma EmptyPatchKeepsFields(p: Project, id: int)
    ensures Patched(p, id, ProjectRequestPatch(None, None, None)) == p.(id := id)
  {
  }

  /** How `save` can refuse a project: Bean Validation of the entity runs
      first, and a project breaking its constraints is not stored. */
  function Validated(p: Project): (r: Result<Project, Error>)
    ensures r.Ok? <==> ProjectValid(p)
    ensures r.Ok? ==> r.value == p
    ensures r.Err? ==> r.error == ConstraintViolation(ProjectViolations(p)) && r.error.violations != []
  {
    var violations := ProjectViolations(p);
    if violations == [] then Ok(p) else Err(ConstraintViolation(violations))
  }

  /** The outcome of `updateProject` on the stored projects: the lookup, then
      the modify check, then the save's validation of the updated project. */
  function UpdateResult(projects: map<int, Project>, id: int, dto: ProjectRequest, caller: User): (r: Result<Project, Error>)
    ensures AuthorizeModification(projects, id, caller).Err? ==> r == Err(AuthorizeModification(projects, id, caller).error)
    ensures AuthorizeModification(projects, id, caller).Ok? ==>
      r == Validated(Updated(projects[id], id, dto))
  {
    match AuthorizeModification(projects, id, caller)
    case Err(e) => Err(e)
    case Ok(p) => Validated(Updated(p, id, dto))
  }

  /** The outcome of `partialUpdateProject`, in the same order. */
  function PatchResult(projects: map<int, Project>, id: int, patch: ProjectRequestPatch, caller: User): (r: Result<Project, Error>)
    ensures AuthorizeModification(projects, id, caller).Err? ==> r == Err(AuthorizeModification(projects, id, caller).error)
    ensures AuthorizeModification(projects, id, caller).Ok? ==>
      r == Validated(Patched(projects[id], id, patch))
  {
    match AuthorizeModification(projects, id, caller)
    case Err(e) => Err(e)
    case Ok(p) => Validated(Patched(p, id, patch))
  }

  /** A full update from a body that passed the request's validation always
      satisfies the entity's constraints, so its save is never refused: the
      body and the entity bound the title and description alike. */
  lemma ValidatedUpdateSaves(p: Project, id: int, dto: ProjectRequest)
    requires ProjectRequestValid(dto)
    ensures ProjectValid(Updated(p, id, dto))
    ensures ProjectViolations(Updated(p, id, dto)) == []
  {
  }

  /** A patch whose title is present but blank is refused at the save, with
      the entity's title message; so is one whose description is too long. */
  lemma BlankPatchTitleRefused(p: Project, id: int, patch: ProjectRequestPatch)
    requires patch.title.Some? && forall i :: 0 <= i < |patch.title.value| ==> IsTrimmed(patch.title.value[i])
    ensures !ProjectValid(Patched(p, id, patch))
    ensures FieldError("title", "The title cannot be blank!") in ProjectViolations(Patched(p, id, patch))
  {
    TrimEmptyIffAllTrimmed(patch.title.value);
  }

  /** A patch whose description exceeds 50 characters is refused at the save. */
  lemma LongPatchDescriptionRefused(p: Project, id: int, patch: ProjectRequestPatch)
    requires patch.description.Some? && |patch.description.value| > 50
    ensures FieldError("description", "size must be between 0 and 50") in ProjectViolations(Patched(p, id, patch))
  {
  }

  /** A patch keeps a stored project savable when every present field meets
      the entity's bounds. */
  lemma BoundedPatchSaves(p: Project, id: int, patch: ProjectRequestPatch)
    requires ProjectValid(p)
    requires patch.title.Some? ==> NotBlank(patch.title) && SizeWithin(patch.title, 0, 50)
    requires patch.description.Some? ==> SizeWithin(patch.description, 0, 50)
    ensures ProjectViolations(Patched(p, id, patch)) == []
  {
  }

  // ------------------------------------------------------------- the service

  class ProjectService {
    const db: Database

    constructor (db: Database)
      ensures this.db == db
    {
      this.db := db;
    }

    /** `getAllProjects`: every project for an admin, the caller's team
        projects otherwise. Paging is not modelled. */
    function GetAllProjects(user: User): (r: set<Project>)
      reads db
      ensures r <= db.projects.Values
    {
      if IsAdm(user) then db.projects.Values
      else ProjectQueries.FindByTeam(db.projects.Values, user)
    }

    /** The listing shows a stored project exactly when the caller may view it. */
    lemma ListingMatchesViewCheck(user: User, p: Project)
      requires p in db.projects.Values
      ensures p in GetAllProjects(user) <==> EnsureUserCanViewProject(p, user).Pass?
    {
      FindByTeamMatchesTeamScan(db.projects.Values, user);
    }

    /** An admin lists every project; a caller on no team lists none. */
    lemma ListingExtremes(user: User)
      ensures IsAdm(user) ==> GetAllProjects(user) == db.projects.Values
      ensures !IsAdm(user) && (forall p :: p in db.projects.Values ==> forall m :: m in p.team ==> m.userId != user.userId)
        ==> GetAllProjects(user) == {}
    {
    }

    /** `getProjectById`: not found before the view check. */
    function GetProjectById(id: int, user: User): (r: Result<Project, Error>)
      reads db
      ensures id !in db.projects ==> r == Err(ResourceNotFound(ProjectNotFound))
      ensures id in db.projects ==>
        r == if EnsureUserCanViewProject(db.projects[id], user).Pass? then Ok(db.projects[id])
             else Err(AccessDenied(CannotView))
    {
      if id !in db.projects then Err(ResourceNotFound(ProjectNotFound))
      else
        match EnsureUserCanViewProject(db.projects[id], user)
        case Fail(e) => Err(e)
        case Pass => Ok(db.projects[id])
    }

    /** `findUsers`. */
    function FindUsers(id: int): (r: Result<User, Error>)
      reads db
      requires db.Valid()
      ensures r.Ok? <==> id in db.users
      ensures r.Ok? ==> r.value == db.users[id] && r.value.userId == id
      ensures r.Err? ==> r.error == ResourceNotFound(UserNotFound)
    {
      match db.FindUser(id)
      case Some(u) => Ok(u)
      case None => Err(ResourceNotFound(UserNotFound))
    }

    /** The loop of `createProject` that resolves the requested team ids, each
        member kept once, failing on the first id that does not resolve. */
    method BuildTeam(ids: seq<int>) returns (r: Result<seq<User>, Error>)
      requires db.Valid()
      ensures r.Err? <==> exists i :: 0 <= i < |ids| && ids[i] !in db.users
      ensures r.Err? ==> r.error == ResourceNotFound(UserNotFound)
      ensures r.Ok? ==> (forall i :: 0 <= i < |ids| ==> ids[i] in db.users) && r.value == Distinct(Resolved(db.users, ids))
    {
      ghost var users := db.users;
      var teamList: seq<User> := [];
      var k := 0;
      while k < |ids|
        invariant 0 <= k <= |ids|
        invariant forall i :: 0 <= i < k ==> ids[i] in users
        invariant teamList == Distinct(Resolved(users, ids[..k]))
      {
        var found := FindUsers(ids[k]);
        if found.Err? {
          assert ids[k] !in users;
          return Err(found.error);
        }
        ghost var before := Resolved(users, ids[..k]);
        ResolvedSnoc(users, ids, k);
        DistinctSnoc(before, found.value);
        if found.value !in teamList {
          teamList := teamList + [found.value];
        }
        k := k + 1;
      }
      assert ids[..k] == ids;
      r := Ok(teamList);
    }

    /** `createProject`: resolve the caller, then the team; any id that does
        not resolve fails before anything is saved. The caller becomes the
        creator and is on the team. */
    method CreateProject(dto: ProjectRequest, caller: User) returns (r: Result<Project, Error>)
      requires db.Valid()
      modifies db
      ensures db.Valid()
      ensures db.users == old(db.users) && db.roles == old(db.roles) && db.tasks == old(db.tasks)
      ensures db.nextUserId == old(db.nextUserId)
      ensures db.nextProjectId == if r.Ok? then old(db.nextProjectId) + 1 else old(db.nextProjectId)
      ensures r.Err? <==>
        caller.userId !in db.users || exists i :: 0 <= i < |dto.team| && dto.team[i] !in db.users
      ensures r.Err? ==> r.error == ResourceNotFound(UserNotFound) && db.projects == old(db.projects)
      ensures r.Ok? ==>
        && r.value.id == old(db.nextProjectId)
        && r.value.id !in old(db.projects)
        && r.value.title == dto.title && r.value.description == dto.description
        && r.value.creator == db.users[caller.userId]
        && r.value.team == TeamIntended(db.users, dto.team, r.value.creator)
        && db.projects == old(db.projects)[r.value.id := r.value]
    {
      var creatorUser := FindUsers(caller.userId);
      if creatorUser.Err? {
        return Err(creatorUser.error);
      }
      var teamList := BuildTeam(dto.team);
      if teamList.Err? {
        return Err(teamList.error);
      }
      var creator := creatorUser.value;
      var team := teamList.value;
      if creator !in team {
        team := team + [creator];
      }
      var project := Project(db.nextProjectId, dto.title, dto.description, creator, team);
      db.projects := db.projects[project.id := project];
      db.nextProjectId := db.nextProjectId + 1;
      r := Ok(project);
    }

    /** `updateProject`. The save validates the entity: a project that breaks
        its constraints is refused and nothing is stored. */
    method UpdateProject(id: int, dto: ProjectRequest, caller: User) returns (r: Result<Project, Error>)
      requires db.Valid()
      modifies db
      ensures db.Valid()
      ensures db.users == old(db.users) && db.roles == old(db.roles) && db.tasks == old(db.tasks)
      ensures db.nextUserId == old(db.nextUserId) && db.nextProjectId == old(db.nextProjectId)
      ensures r == UpdateResult(old(db.projects), id, dto, caller)
      ensures db.projects == if r.Ok? then old(db.projects)[id := r.value] else old(db.projects)
    {
      r := UpdateResult(db.projects, id, dto, caller);
      if r.Ok? {
        db.projects := db.projects[id := r.value];
      }
    }

    /** `partialUpdateProject`. The patch body carries no constraints of its
        own, so the save's entity validation is what refuses a blank or
        over-long title and an over-long description. */
    method PartialUpdateProject(id: int, patch: ProjectRequestPatch, caller: User) returns (r: Result<Project, Error>)
      requires db.Valid()
      modifies db
      ensures db.Valid()
      ensures db.users == old(db.users) && db.roles == old(db.roles) && db.tasks == old(db.tasks)
      ensures db.nextUserId == old(db.nextUserId) && db.nextProjectId == old(db.nextProjectId)
      ensures r == PatchResult(old(db.projects), id, patch, caller)
      ensures db.projects == if r.Ok? then old(db.projects)[id := r.value] else old(db.projects)
    {
      r := PatchResult(db.projects, id, patch, caller);
      if r.Ok? {
        db.projects := db.projects[id := r.value];
      }
    }

    /** `deleteProject`: the project and, by cascade, every task it owns go. */
    method DeleteProject(id: int, caller: User) returns (r: Outcome<Error>)
      requires db.Valid()
      modifies db
      ensures db.Valid()
      ensures db.users == old(db.users) && db.roles == old(db.roles)
      ensures db.nextUserId == old(db.nextUserId) && db.nextProjectId == old(db.nextProjectId)
      ensures match AuthorizeModification(old(db.projects), id, caller)
        case Err(e) => r == Fail(e) && db.projects == old(db.projects) && db.tasks == old(db.tasks)
        case Ok(_) =>
          && r == Pass
          && db.projects == old(db.projects) - {id}
          && db.tasks == map k | k in old(db.tasks) && old(db.tasks)[k].projectId != id :: old(db.tasks)[k]
    {
      var found := AuthorizeModification(db.projects, id, caller);
      if found.Err? {
        return Fail(found.error);
      }
      db.projects := db.projects - {id};
      db.tasks := map k | k in db.tasks && db.tasks[k].projectId != id :: db.tasks[k];
      r := Pass;
    }
  }
}
