/**
 * The two filtered task projections recomputed on every render from the flat
 * task collection and the three toggles.
 */
module Views {
  import opened Wrappers
  import opened Seqs
  import opened Model

  /** The callback of `filteredTasks`: the rule table over the completed/incomplete toggles. */
  predicate ShownByToggles(lists: seq<List>, task: Task, showCompleted: bool, showIncomplete: bool)
  {
    if showCompleted && showIncomplete then true
    else if showCompleted then FindList(lists, task.listId).Some? && task.completed
    else if showIncomplete then FindList(lists, task.listId).Some? && !task.completed
    else false
  }

  /** `filteredTasks`: the tasks shown under the completed/incomplete toggles. */
  function FilteredTasks(lists: seq<List>, tasks: seq<Task>, showCompleted: bool, showIncomplete: bool): (r: seq<Task>)
    ensures IsSubsequence(r, tasks)
    ensures showCompleted && showIncomplete ==> r == tasks
    ensures !showCompleted && !showIncomplete ==> r == []
    ensures showCompleted && !showIncomplete ==>
      forall t :: t in r <==> t in tasks && t.completed && HasList(lists, t.listId)
    ensures !showCompleted && showIncomplete ==>
      forall t :: t in r <==> t in tasks && !t.completed && HasList(lists, t.listId)
  {
    Filter(tasks, (t: Task) => ShownByToggles(lists, t, showCompleted, showIncomplete))
  }

  /**
   * `new Date(task.dateOverdue) < new Date()`: an absent or unparsable date
   * is an invalid date and compares false, so only a due instant strictly
   * before `now` counts (a `null` date is the instant 0, and so it counts).
   */
  predicate PastDue(task: Task, now: int)
  {
    match task.dateOverdue
    case None => false
    case Some(due) => due < now
  }

  /** `findOverdueTasks`: when the toggle is on, the unfinished tasks due strictly before `now`. */
  function OverdueTasks(tasks: seq<Task>, showOverdue: bool, now: int): (r: seq<Task>)
    ensures IsSubsequence(r, tasks)
    ensures !showOverdue ==> r == []
    ensures showOverdue ==>
      forall t :: t in r <==> t in tasks && !t.completed && t.dateOverdue.Some? && t.dateOverdue.value < now
  {
    Filter(tasks, (t: Task) => if showOverdue then PastDue(t, now) && !t.completed else false)
  }

  /** Under every toggle combination each task keeps its multiplicity exactly when it passes the rule table. */
  lemma FilteredTasksCount(lists: seq<List>, tasks: seq<Task>, showCompleted: bool, showIncomplete: bool, t: Task)
    ensures multiset(FilteredTasks(lists, tasks, showCompleted, showIncomplete))[t] ==
      if ShownByToggles(lists, t, showCompleted, showIncomplete) then multiset(tasks)[t] else 0
  {
    FilterCount(tasks, (t: Task) => ShownByToggles(lists, t, showCompleted, showIncomplete), t);
  }

  /** When the toggle is on, each task keeps its multiplicity exactly when it is unfinished and past due. */
  lemma OverdueTasksCount(tasks: seq<Task>, showOverdue: bool, now: int, t: Task)
    ensures multiset(OverdueTasks(tasks, showOverdue, now))[t] ==
      if showOverdue && PastDue(t, now) && !t.completed then multiset(tasks)[t] else 0
  {
    FilterCount(tasks, (task: Task) => if showOverdue then PastDue(task, now) && !task.completed else false, t);
  }
}
