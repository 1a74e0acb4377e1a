/** The persistence collaborator: the user, role, project and task tables that
    the repositories read and write, held in memory and keyed by id. */
module Persistence {

  import opened Results
  import opened Domain

  class Database {
    var users: map<int, User>
    /** The role table: at most one record per role name (unique column). */
    var roles: map<ERole, Role>
    var projects: map<int, Project>
    var tasks: map<int, Task>
    /** The next identity value `save` hands out for a new user or project. */
    var nextUserId: int
    var nextProjectId: int

    /** Every row is stored under its own id, and generated ids are fresh. */
    ghost predicate Valid()
      reads this
    {
      && (forall k :: k in users ==> users[k].userId == k && k < nextUserId)
      && (forall n :: n in roles ==> roles[n].roleName == n)
      && (forall k :: k in projects ==> projects[k].id == k && k < nextProjectId)
      && (forall k :: k in tasks ==> tasks[k].id == k)
    }

    /** A database holding only the given role records. */
    constructor (roleTable: map<ERole, Role>)
      requires forall n :: n in roleTable ==> roleTable[n].roleName == n
      ensures Valid()
      ensures users == map[] && projects == map[] && tasks == map[]
      ensures roles == roleTable
    {
      users, roles, projects, tasks := map[], roleTable, map[], map[];
      nextUserId, nextProjectId := 1, 1;
    }

    /** `findById` on the user table. */
    function FindUser(id: int): (r: Option<User>)
      reads this
      requires Valid()
      ensures r.Some? <==> id in users
      ensures r.Some? ==> r.value == users[id] && r.value.userId == id
    {
      if id in users then Some(users[id]) else None
    }

    /** `findByRoleName` on the role table. */
    function FindRole(name: ERole): (r: Option<Role>)
      reads this
      requires Valid()
      ensures r.Some? <==> name in roles
      ensures r.Some? ==> r.value == roles[name] && r.value.roleName == name
    {
      if name in roles then Some(roles[name]) else None
    }
  }
}
