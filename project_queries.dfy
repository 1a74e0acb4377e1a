/** The project queries of the project repository. The two filtered queries
    evaluate their JPQL: `Project p JOIN p.tasks t` (a project's tasks are the
    tasks whose project is `p`), optionally `LEFT JOIN t.usersResponsability
    ur`, a WHERE clause over each row, and `DISTINCT` over the projects.
    `findByTeam` is a team-membership selection over the project table. */
module ProjectQueries {

  import opened Results
  import opened Domain
  import opened Sequences
  import opened TaskQueries

  /** One row of the project join: a project with one joined task row. */
  datatype ProjectRow = ProjectRow(project: Project, row: JoinRow)

  /** The tasks of `p`: those whose project column holds `p`'s id. */
  function TasksOf(p: Project, tasks: seq<Task>): (r: seq<Task>)
    ensures forall t :: t in r <==> t in tasks && t.projectId == p.id
  {
    if tasks == [] then []
    else
      assert forall t :: t in tasks <==> t == tasks[0] || t in tasks[1..];
      (if tasks[0].projectId == p.id then [tasks[0]] else []) + TasksOf(p, tasks[1..])
  }

  /** Task rows without the responsibility join: one row per task. */
  function PlainRows(tasks: seq<Task>): (rows: seq<JoinRow>)
    ensures forall row :: row in rows <==> row.task in tasks && row.responsible.None?
  {
    if tasks == [] then []
    else
      assert forall t :: t in tasks <==> t == tasks[0] || t in tasks[1..];
      [JoinRow(tasks[0], None)] + PlainRows(tasks[1..])
  }

  /** `p` paired with each of `rows`. */
  function Pair(p: Project, rows: seq<JoinRow>): (r: seq<ProjectRow>)
    ensures forall x :: x in r <==> x.project == p && x.row in rows
  {
    if rows == [] then []
    else
      assert forall row :: row in rows <==> row == rows[0] || row in rows[1..];
      [ProjectRow(p, rows[0])] + Pair(p, rows[1..])
  }

  /** `Project p JOIN p.tasks t`, with `LEFT JOIN t.usersResponsability ur`
      when `withResponsible` holds. */
  function ProjectJoin(projects: seq<Project>, tasks: seq<Task>, withResponsible: bool): (r: seq<ProjectRow>)
    ensures forall x :: x in r <==>
      x.project in projects &&
      if withResponsible then x.row in LeftJoin(TasksOf(x.project, tasks))
      else x.row in PlainRows(TasksOf(x.project, tasks))
  {
    if projects == [] then []
    else
      var p := projects[0];
      assert forall q :: q in projects <==> q == p || q in projects[1..];
      var own := TasksOf(p, tasks);
      Pair(p, if withResponsible then LeftJoin(own) else PlainRows(own)) + ProjectJoin(projects[1..], tasks, withResponsible)
  }

  /** The WHERE clause of a project row; the project filter reads `p.id`. */
  predicate ProjectRowHolds(c: Criteria, userId: Option<int>, x: ProjectRow) {
    && (c.status.None? || x.row.task.status == c.status)
    && (c.dueDate.None? || x.row.task.dueDate <= c.dueDate.value)
    && (c.projectId.None? || x.project.id == c.projectId.value)
    && UserRowHolds(userId, x.row)
  }

  /** `SELECT p ... WHERE`: the projects of the kept rows, in row order. */
  function SelectProjects(rows: seq<ProjectRow>, c: Criteria, userId: Option<int>): (r: seq<Project>)
    ensures forall p :: p in r <==> exists x :: x in rows && x.project == p && ProjectRowHolds(c, userId, x)
  {
    if rows == [] then []
    else
      assert forall x :: x in rows <==> x == rows[0] || x in rows[1..];
      (if ProjectRowHolds(c, userId, rows[0]) then [rows[0].project] else []) + SelectProjects(rows[1..], c, userId)
  }

  /** `findProjectsFilteredByUser`. */
  function FindProjectsFilteredByUser(projects: seq<Project>, tasks: seq<Task>, c: Criteria, userId: Option<int>): seq<Project> {
    Distinct(SelectProjects(ProjectJoin(projects, tasks, true), c, userId))
  }

  /** `findProjectsFiltered`. */
  function FindProjectsFiltered(projects: seq<Project>, tasks: seq<Task>, c: Criteria): seq<Project> {
    Distinct(SelectProjects(ProjectJoin(projects, tasks, false), c, None))
  }

  /** `findByTeam`: the projects whose team lists the user. */
  function FindByTeam(projects: set<Project>, user: User): set<Project> {
    set p | p in projects && exists m :: m in p.team && m.userId == user.userId
  }

  // ------------------------------------------------------------ properties

  /** Every project the user-filtered query lists owns a task passing the filters. */
  lemma ProjectsByUserSound(projects: seq<Project>, tasks: seq<Task>, c: Criteria, userId: Option<int>, p: Project)
    requires p in FindProjectsFilteredByUser(projects, tasks, c, userId)
    ensures p in projects && exists t :: t in tasks && t.projectId == p.id && CriteriaHold(c, t) && UserMatches(userId, t)
  {
    var rows := ProjectJoin(projects, tasks, true);
    var x :| x in rows && x.project == p && ProjectRowHolds(c, userId, x);
    var t := x.row.task;
    assert t in TasksOf(p, tasks);
    assert x.row in RowsOf(t);
    assert UserMatches(userId, t) by {
      if userId.Some? && t.owner.userId != userId.value {
        assert x.row.responsible.value in t.usersResponsability;
      }
    }
  }

  /** A row of one of a project's tasks is a row of the project join. */
  lemma RowInProjectJoin(projects: seq<Project>, tasks: seq<Task>, p: Project, t: Task, row: JoinRow)
    requires p in projects && t in tasks && t.projectId == p.id && row.task == t && row in RowsOf(t)
    ensures ProjectRow(p, row) in ProjectJoin(projects, tasks, true)
  {
    assert t in TasksOf(p, tasks);
  }

  /** Every project owning a task that passes the filters is listed. */
  lemma ProjectsByUserComplete(projects: seq<Project>, tasks: seq<Task>, c: Criteria, userId: Option<int>,
                               p: Project, t: Task)
    requires p in projects && t in tasks && t.projectId == p.id && CriteriaHold(c, t) && UserMatches(userId, t)
    ensures p in FindProjectsFilteredByUser(projects, tasks, c, userId)
  {
    var row: JoinRow;
    if userId.None? || t.owner.userId == userId.value {
      row := RowsOf(t)[0];
    } else {
      var u :| u in t.usersResponsability && u.userId == userId.value;
      row := JoinRow(t, Some(u));
    }
    RowInProjectJoin(projects, tasks, p, t, row);
    assert ProjectRowHolds(c, userId, ProjectRow(p, row));
  }

  /** `findProjectsFilteredByUser` returns exactly the projects of the table
      that own a single task passing every present filter (the project filter
      on the project's id), and none twice. */
  lemma FindProjectsFilteredByUserSpec(projects: seq<Project>, tasks: seq<Task>, c: Criteria,
                                       userId: Option<int>, p: Project)
    ensures p in FindProjectsFilteredByUser(projects, tasks, c, userId) <==>
      p in projects && exists t :: t in tasks && t.projectId == p.id && CriteriaHold(c, t) && UserMatches(userId, t)
    ensures NoDuplicates(FindProjectsFilteredByUser(projects, tasks, c, userId))
  {
    if p in FindProjectsFilteredByUser(projects, tasks, c, userId) {
      ProjectsByUserSound(projects, tasks, c, userId, p);
    }
    if p in projects && exists t :: t in tasks && t.projectId == p.id && CriteriaHold(c, t) && UserMatches(userId, t) {
      var t :| t in tasks && t.projectId == p.id && CriteriaHold(c, t) && UserMatches(userId, t);
      ProjectsByUserComplete(projects, tasks, c, userId, p, t);
    }
  }

  /** A task of a stored project gives that project a row of the plain join. */
  lemma PlainRowInProjectJoin(projects: seq<Project>, tasks: seq<Task>, p: Project, t: Task)
    requires p in projects && t in tasks && t.projectId == p.id
    ensures ProjectRow(p, JoinRow(t, None)) in ProjectJoin(projects, tasks, false)
  {
    assert t in TasksOf(p, tasks);
  }

  /** Every row of the plain join pairs a stored project with one of its tasks. */
  lemma PlainJoinRowOwnsTask(projects: seq<Project>, tasks: seq<Task>, x: ProjectRow)
    requires x in ProjectJoin(projects, tasks, false)
    ensures x.project in projects && x.row.task in tasks && x.row.task.projectId == x.project.id
  {
    assert x.row.task in TasksOf(x.project, tasks);
  }

  /** `findProjectsFiltered` returns exactly the projects that own a single
      task passing every present filter, and none twice. */
  lemma FindProjectsFilteredSpec(projects: seq<Project>, tasks: seq<Task>, c: Criteria, p: Project)
    ensures p in FindProjectsFiltered(projects, tasks, c) <==>
      p in projects && exists t :: t in tasks && t.projectId == p.id && CriteriaHold(c, t)
    ensures NoDuplicates(FindProjectsFiltered(projects, tasks, c))
  {
    var rows := ProjectJoin(projects, tasks, false);
    var selected := SelectProjects(rows, c, None);
    assert FindProjectsFiltered(projects, tasks, c) == Distinct(selected);
    if p in selected {
      var x :| x in rows && x.project == p && ProjectRowHolds(c, None, x);
      PlainJoinRowOwnsTask(projects, tasks, x);
      assert x.row.task in tasks && x.row.task.projectId == p.id && CriteriaHold(c, x.row.task);
    }
    if p in projects && exists t :: t in tasks && t.projectId == p.id && CriteriaHold(c, t) {
      var t :| t in tasks && t.projectId == p.id && CriteriaHold(c, t);
      PlainRowInProjectJoin(projects, tasks, p, t);
      assert ProjectRowHolds(c, None, ProjectRow(p, JoinRow(t, None)));
      assert p in selected;
    }
  }

  /** The project query agrees with the task query: a project is listed
      exactly when the task query with the same filters lists one of its tasks. */
  lemma ProjectsFollowTasks(projects: seq<Project>, tasks: seq<Task>, c: Criteria, userId: Option<int>, p: Project)
    ensures p in FindProjectsFilteredByUser(projects, tasks, c, userId) <==>
      p in projects && exists t :: t in FindTasksFilteredByUser(tasks, c, userId) && t.projectId == p.id
  {
    FindProjectsFilteredByUserSpec(projects, tasks, c, userId, p);
    forall t | t in tasks {
      FindTasksFilteredByUserSpec(tasks, c, userId, t);
    }
    if p in projects && exists t :: t in FindTasksFilteredByUser(tasks, c, userId) && t.projectId == p.id {
      var t :| t in FindTasksFilteredByUser(tasks, c, userId) && t.projectId == p.id;
      FindTasksFilteredByUserSpec(tasks, c, userId, t);
    }
  }

  /** A project without tasks is never listed by either filtered query, with
      or without filters: the task join is an inner join. */
  lemma ProjectWithoutTasksNeverListed(projects: seq<Project>, tasks: seq<Task>, c: Criteria,
                                       userId: Option<int>, p: Project)
    requires forall t :: t in tasks ==> t.projectId != p.id
    ensures p !in FindProjectsFilteredByUser(projects, tasks, c, userId)
    ensures p !in FindProjectsFiltered(projects, tasks, c)
  {
    FindProjectsFilteredByUserSpec(projects, tasks, c, userId, p);
    FindProjectsFilteredSpec(projects, tasks, c, p);
  }

  /** Adding filters never lists an extra project. */
  lemma FilteredByUserMonotonic(projects: seq<Project>, tasks: seq<Task>, fine: Criteria, coarse: Criteria,
                                fineUser: Option<int>, coarseUser: Option<int>, p: Project)
    requires Refines(fine, coarse)
    requires coarseUser.None? || fineUser == coarseUser
    requires p in FindProjectsFilteredByUser(projects, tasks, fine, fineUser)
    ensures p in FindProjectsFilteredByUser(projects, tasks, coarse, coarseUser)
  {
    FindProjectsFilteredByUserSpec(projects, tasks, fine, fineUser, p);
    FindProjectsFilteredByUserSpec(projects, tasks, coarse, coarseUser, p);
  }

  /** Without a user filter both project queries list the same projects. */
  lemma NoUserFilterSameAsFiltered(projects: seq<Project>, tasks: seq<Task>, c: Criteria, p: Project)
    ensures p in FindProjectsFilteredByUser(projects, tasks, c, None) <==> p in FindProjectsFiltered(projects, tasks, c)
  {
    FindProjectsFilteredByUserSpec(projects, tasks, c, None, p);
    FindProjectsFilteredSpec(projects, tasks, c, p);
  }
}
