/** The constraints declared on the `Task` and `Project` entities. A task's
    owner and project and a project's creator are required; the entity types
    make them non-optional, so only the checked fields remain here. */
module Entities {

  import opened Domain
  import opened Constraints

  /** The constraints on a task, checked at instant `now`. */
  predicate TaskValid(t: Task, now: int) {
    && SizeWithin(t.title, 0, 50)
    && NotBlank(t.title)
    && SizeWithin(t.description, 0, 250)
    && t.dueDate > now
  }

  /** The violations of the task constraints, one per failed constraint. */
  function TaskViolations(t: Task, now: int): (errs: seq<FieldError>)
    ensures errs == [] <==> TaskValid(t, now)
    ensures forall e :: e in errs ==> e.field in {"title", "description", "dueDate"}
  {
    Check(SizeWithin(t.title, 0, 50), "title", "size must be between 0 and 50")
    + Check(NotBlank(t.title), "title", "The title cannot be blank!")
    + Check(SizeWithin(t.description, 0, 250), "description", "size must be between 0 and 250")
    + Check(t.dueDate > now, "dueDate", "The due date must be in the future")
  }

  /** The constraints on a project. */
  predicate ProjectValid(p: Project) {
    && NotBlank(p.title)
    && SizeWithin(p.title, 0, 50)
    && SizeWithin(p.description, 0, 50)
  }

  /** The violations of the project constraints, one per failed constraint. */
  function ProjectViolations(p: Project): (errs: seq<FieldError>)
    ensures errs == [] <==> ProjectValid(p)
    ensures forall e :: e in errs ==> e.field in {"title", "description"}
  {
    Check(NotBlank(p.title), "title", "The title cannot be blank!")
    + Check(SizeWithin(p.title, 0, 50), "title", "size must be between 0 and 50")
    + Check(SizeWithin(p.description, 0, 50), "description", "size must be between 0 and 50")
  }

  /** A task's due date must be strictly later than the instant of the check:
      a task due exactly now is rejected. */
  lemma TaskDueNowRejected(t: Task, now: int)
    requires t.dueDate == now
    ensures FieldError("dueDate", "The due date must be in the future") in TaskViolations(t, now)
  {
  }

  /** A title of blanks is rejected, whatever its length. */
  lemma BlankProjectTitleRejected(p: Project)
    requires p.title.Some? && forall i :: 0 <= i < |p.title.value| ==> IsTrimmed(p.title.value[i])
    ensures FieldError("title", "The title cannot be blank!") in ProjectViolations(p)
  {
    TrimEmptyIffAllTrimmed(p.title.value);
  }
}
