/** The filtered task queries of the task repository, evaluated the way the
    JPQL is: the join produces one row per (task, responsible user) pair, the
    WHERE clause keeps rows, and `DISTINCT` collapses repeated tasks. The
    table is scanned in the order of `tasks`; paging and sorting are not
    modelled. */
module TaskQueries {

  import opened Results
  import opened Domain
  import opened Sequences

  /** The three optional filters both task queries share; `None` is a null
      parameter. `dueDate` is an inclusive upper bound. */
  datatype Criteria = Criteria(status: Option<Status>, dueDate: Option<int>, projectId: Option<int>)

  /** One row of `Task t LEFT JOIN t.usersResponsability ur`. */
  datatype JoinRow = JoinRow(task: Task, responsible: Option<User>)

  /** The WHERE clause over the task's own columns. A present status never
      matches a task whose status is null. */
  predicate CriteriaHold(c: Criteria, t: Task) {
    && (c.status.None? || t.status == c.status)
    && (c.dueDate.None? || t.dueDate <= c.dueDate.value)
    && (c.projectId.None? || t.projectId == c.projectId.value)
  }

  /** The user clause of one joined row: owner or this row's responsible user. */
  predicate UserRowHolds(userId: Option<int>, row: JoinRow) {
    || userId.None?
    || row.task.owner.userId == userId.value
    || (row.responsible.Some? && row.responsible.value.userId == userId.value)
  }

  /** The user filter of the query as a property of the task itself. */
  ghost predicate UserMatches(userId: Option<int>, t: Task) {
    || userId.None?
    || t.owner.userId == userId.value
    || exists u :: u in t.usersResponsability && u.userId == userId.value
  }

  /** One joined row per user of `us`, each pairing `t` with that user. */
  function ResponsibleRows(t: Task, us: seq<User>): (rows: seq<JoinRow>)
    ensures forall row :: row in rows <==> row.task == t && row.responsible.Some? && row.responsible.value in us
  {
    if us == [] then []
    else
      assert forall v :: v in us <==> v == us[0] || v in us[1..];
      [JoinRow(t, Some(us[0]))] + ResponsibleRows(t, us[1..])
  }

  /** The left-join rows of one task: one per responsible user, or a single
      row with a null user when it has none. */
  function RowsOf(t: Task): (rows: seq<JoinRow>)
    ensures |rows| > 0
    ensures forall row :: row in rows <==>
      if t.usersResponsability == [] then row == JoinRow(t, None)
      else row.task == t && row.responsible.Some? && row.responsible.value in t.usersResponsability
  {
    if t.usersResponsability == [] then [JoinRow(t, None)]
    else
      assert JoinRow(t, Some(t.usersResponsability[0])) in ResponsibleRows(t, t.usersResponsability);
      ResponsibleRows(t, t.usersResponsability)
  }

  /** `Task t LEFT JOIN t.usersResponsability ur`. */
  function LeftJoin(tasks: seq<Task>): (rows: seq<JoinRow>)
    ensures forall row :: row in rows <==> row.task in tasks && row in RowsOf(row.task)
  {
    if tasks == [] then [] else RowsOf(tasks[0]) + LeftJoin(tasks[1..])
  }

  /** `Task t JOIN t.usersResponsability u`: tasks without responsible users
      produce no row. */
  function InnerJoin(tasks: seq<Task>): (rows: seq<JoinRow>)
    ensures forall row :: row in rows <==>
      row.task in tasks && row.responsible.Some? && row.responsible.value in row.task.usersResponsability
  {
    if tasks == [] then []
    else
      assert forall x :: x in tasks <==> x == tasks[0] || x in tasks[1..];
      ResponsibleRows(tasks[0], tasks[0].usersResponsability) + InnerJoin(tasks[1..])
  }

  /** `SELECT t ... WHERE`: the tasks of the rows the clause keeps, in row order. */
  function SelectWhere(rows: seq<JoinRow>, c: Criteria, userId: Option<int>): (r: seq<Task>)
    ensures forall t :: t in r <==>
      exists row :: row in rows && row.task == t && CriteriaHold(c, t) && UserRowHolds(userId, row)
  {
    if rows == [] then []
    else
      var rest := SelectWhere(rows[1..], c, userId);
      assert forall row :: row in rows <==> row == rows[0] || row in rows[1..];
      if CriteriaHold(c, rows[0].task) && UserRowHolds(userId, rows[0]) then [rows[0].task] + rest else rest
  }

  /** `findTasksFilteredByUser`. */
  function FindTasksFilteredByUser(tasks: seq<Task>, c: Criteria, userId: Option<int>): seq<Task> {
    Distinct(SelectWhere(LeftJoin(tasks), c, userId))
  }

  /** `findTasksFiltered`: no join, so every task is one row. */
  function FindTasksFiltered(tasks: seq<Task>, c: Criteria): (r: seq<Task>)
    ensures forall t :: t in r <==> t in tasks && CriteriaHold(c, t)
    ensures NoDuplicates(r)
  {
    Distinct(FilterCriteria(tasks, c))
  }

  function FilterCriteria(tasks: seq<Task>, c: Criteria): (r: seq<Task>)
    ensures forall t :: t in r <==> t in tasks && CriteriaHold(c, t)
  {
    if tasks == [] then []
    else
      assert forall t :: t in tasks <==> t == tasks[0] || t in tasks[1..];
      (if CriteriaHold(c, tasks[0]) then [tasks[0]] else []) + FilterCriteria(tasks[1..], c)
  }

  /** `findByProjectIdAndUsersResponsabilityId`: an inner join, without `DISTINCT`. */
  function FindByProjectIdAndUsersResponsabilityId(tasks: seq<Task>, projectId: int, userId: int): seq<Task> {
    SelectResponsible(InnerJoin(tasks), projectId, userId)
  }

  function SelectResponsible(rows: seq<JoinRow>, projectId: int, userId: int): (r: seq<Task>)
    ensures forall t :: t in r <==>
      (exists row :: row in rows && row.task == t && t.projectId == projectId
         && row.responsible.Some? && row.responsible.value.userId == userId)
  {
    if rows == [] then []
    else
      var row := rows[0];
      assert forall x :: x in rows <==> x == row || x in rows[1..];
      (if row.task.projectId == projectId && row.responsible.Some? && row.responsible.value.userId == userId
       then [row.task] else [])
      + SelectResponsible(rows[1..], projectId, userId)
  }

  // ------------------------------------------------------------ properties

  /** The join-and-collapse evaluation returns exactly the tasks of the table
      that pass every present filter, where the user filter means "owner, or
      one of the responsible users"; and no task twice. */
  lemma FindTasksFilteredByUserSpec(tasks: seq<Task>, c: Criteria, userId: Option<int>, t: Task)
    ensures t in FindTasksFilteredByUser(tasks, c, userId) <==>
      t in tasks && CriteriaHold(c, t) && UserMatches(userId, t)
    ensures NoDuplicates(FindTasksFilteredByUser(tasks, c, userId))
  {
    var rows := LeftJoin(tasks);
    if t in tasks && CriteriaHold(c, t) && UserMatches(userId, t) {
      var row: JoinRow;
      if userId.None? || t.owner.userId == userId.value {
        row := RowsOf(t)[0];
      } else {
        var u :| u in t.usersResponsability && u.userId == userId.value;
        row := JoinRow(t, Some(u));
      }
      assert row in rows && UserRowHolds(userId, row);
    }
  }

  /** A task with no responsible user still matches through its owner: the
      join is a left join. */
  lemma OwnerMatchesWithoutResponsibleUsers(tasks: seq<Task>, c: Criteria, t: Task)
    requires t in tasks && CriteriaHold(c, t) && t.usersResponsability == []
    ensures t in FindTasksFilteredByUser(tasks, c, Some(t.owner.userId))
  {
    FindTasksFilteredByUserSpec(tasks, c, Some(t.owner.userId), t);
  }

  /** Criteria `fine` refines `coarse` when it keeps every filter `coarse`
      sets, with the same value, and possibly sets more. */
  predicate Refines(fine: Criteria, coarse: Criteria) {
    && (coarse.status.None? || fine.status == coarse.status)
    && (coarse.dueDate.None? || fine.dueDate == coarse.dueDate)
    && (coarse.projectId.None? || fine.projectId == coarse.projectId)
  }

  /** Turning absent filters into present ones never adds a task. */
  lemma FilteredByUserMonotonic(tasks: seq<Task>, fine: Criteria, coarse: Criteria,
                                fineUser: Option<int>, coarseUser: Option<int>, t: Task)
    requires Refines(fine, coarse)
    requires coarseUser.None? || fineUser == coarseUser
    requires t in FindTasksFilteredByUser(tasks, fine, fineUser)
    ensures t in FindTasksFilteredByUser(tasks, coarse, coarseUser)
  {
    FindTasksFilteredByUserSpec(tasks, fine, fineUser, t);
    FindTasksFilteredByUserSpec(tasks, coarse, coarseUser, t);
  }

  /** Without a user filter both queries return the same tasks. */
  lemma NoUserFilterSameAsFiltered(tasks: seq<Task>, c: Criteria, t: Task)
    ensures t in FindTasksFilteredByUser(tasks, c, None) <==> t in FindTasksFiltered(tasks, c)
  {
    FindTasksFilteredByUserSpec(tasks, c, None, t);
  }

  /** The responsibility query returns the project's tasks that list the user
      as responsible. */
  lemma FindByProjectIdAndUsersResponsabilityIdSpec(tasks: seq<Task>, projectId: int, userId: int, t: Task)
    ensures t in FindByProjectIdAndUsersResponsabilityId(tasks, projectId, userId) <==>
      t in tasks && t.projectId == projectId && exists u :: u in t.usersResponsability && u.userId == userId
  {
    if t in tasks && t.projectId == projectId && exists u :: u in t.usersResponsability && u.userId == userId {
      var u :| u in t.usersResponsability && u.userId == userId;
      assert JoinRow(t, Some(u)) in InnerJoin(tasks);
    }
  }

  /** Owning a task does not qualify for the responsibility query: the join
      is an inner join on the responsible users. */
  lemma OwnerAloneNotResponsible(tasks: seq<Task>, t: Task)
    requires forall u :: u in t.usersResponsability ==> u.userId != t.owner.userId
    ensures t !in FindByProjectIdAndUsersResponsabilityId(tasks, t.projectId, t.owner.userId)
  {
    FindByProjectIdAndUsersResponsabilityIdSpec(tasks, t.projectId, t.owner.userId, t);
  }
}
