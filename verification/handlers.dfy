/**
 * The new list collection each mutation handler computes. Every handler maps
 * over the lists and changes only the list (and the tasks) whose identifier
 * matches; list removal filters the collection.
 */
module Handlers {
  import opened Wrappers
  import opened Seqs
  import opened Model
  import opened Routing

  /** `lists.map(item => { if (item.id === id) <update item>; return item; })` */
  function UpdateLists(lists: seq<List>, id: int, f: List -> List): seq<List>
  {
    seq(|lists|, i requires 0 <= i < |lists| => if lists[i].id == id then f(lists[i]) else lists[i])
  }

  /** `list.tasks.map(task => { if (task.id === id) <update task>; return task; })` */
  function UpdateTasks(tasks: seq<Task>, id: int, f: Task -> Task): seq<Task>
  {
    seq(|tasks|, j requires 0 <= j < |tasks| => if tasks[j].id == id then f(tasks[j]) else tasks[j])
  }

  /** Two lists agree on everything but their tasks. */
  predicate SameHeader(a: List, b: List)
  {
    a.id == b.id && a.name == b.name && a.colorId == b.colorId
  }

  /** Two tasks agree on everything but their text. */
  predicate SameButText(a: Task, b: Task)
  {
    a.id == b.id && a.listId == b.listId && a.completed == b.completed && a.dateOverdue == b.dateOverdue
  }

  /** Two tasks agree on everything but their completion flag. */
  predicate SameButCompleted(a: Task, b: Task)
  {
    a.id == b.id && a.listId == b.listId && a.text == b.text && a.dateOverdue == b.dateOverdue
  }

  /** `onAddTask`: the task is appended to the tasks of each list with identifier `listId`. */
  function AddTask(lists: seq<List>, listId: int, taskObj: Task): (r: seq<List>)
    ensures |r| == |lists|
    ensures forall i :: 0 <= i < |lists| ==> SameHeader(r[i], lists[i])
    ensures forall i :: 0 <= i < |lists| && lists[i].id == listId ==>
      |r[i].tasks| == |lists[i].tasks| + 1 &&
      r[i].tasks[..|lists[i].tasks|] == lists[i].tasks && r[i].tasks[|lists[i].tasks|] == taskObj
    ensures forall i :: 0 <= i < |lists| && lists[i].id != listId ==> r[i] == lists[i]
  {
    UpdateLists(lists, listId, (l: List) => l.(tasks := l.tasks + [taskObj]))
  }

  /** `onEditTask` once the prompt gave a non-empty text: only the text of the matching tasks changes. */
  function EditTaskText(lists: seq<List>, listId: int, taskId: int, text: string): (r: seq<List>)
    ensures |r| == |lists|
    ensures forall i :: 0 <= i < |lists| ==> SameHeader(r[i], lists[i]) && |r[i].tasks| == |lists[i].tasks|
    ensures forall i, j :: 0 <= i < |lists| && lists[i].id == listId && 0 <= j < |lists[i].tasks| ==>
      SameButText(r[i].tasks[j], lists[i].tasks[j]) &&
      r[i].tasks[j].text == if lists[i].tasks[j].id == taskId then text else lists[i].tasks[j].text
    ensures forall i :: 0 <= i < |lists| && lists[i].id != listId ==> r[i] == lists[i]
  {
    UpdateLists(lists, listId, (l: List) => l.(tasks := UpdateTasks(l.tasks, taskId, (t: Task) => t.(text := text))))
  }

  /** `onRemoveTask` once confirmed: the matching list loses every task with identifier `taskId`. */
  function RemoveTask(lists: seq<List>, listId: int, taskId: int): (r: seq<List>)
    ensures |r| == |lists|
    ensures forall i :: 0 <= i < |lists| ==> SameHeader(r[i], lists[i])
    ensures forall i :: 0 <= i < |lists| && lists[i].id == listId ==>
      IsSubsequence(r[i].tasks, lists[i].tasks) &&
      forall t :: t in r[i].tasks <==> t in lists[i].tasks && t.id != taskId
    ensures forall i :: 0 <= i < |lists| && lists[i].id != listId ==> r[i] == lists[i]
  {
    UpdateLists(lists, listId, (l: List) => l.(tasks := Filter(l.tasks, (t: Task) => t.id != taskId)))
  }

  /** `onCompleteTask`: only the completion flag of the matching tasks changes, to `completed`. */
  function CompleteTask(lists: seq<List>, listId: int, taskId: int, completed: bool): (r: seq<List>)
    ensures |r| == |lists|
    ensures forall i :: 0 <= i < |lists| ==> SameHeader(r[i], lists[i]) && |r[i].tasks| == |lists[i].tasks|
    ensures forall i, j :: 0 <= i < |lists| && lists[i].id == listId && 0 <= j < |lists[i].tasks| ==>
      SameButCompleted(r[i].tasks[j], lists[i].tasks[j]) &&
      r[i].tasks[j].completed == if lists[i].tasks[j].id == taskId then completed else lists[i].tasks[j].completed
    ensures forall i :: 0 <= i < |lists| && lists[i].id != listId ==> r[i] == lists[i]
  {
    UpdateLists(lists, listId, (l: List) => l.(tasks := UpdateTasks(l.tasks, taskId, (t: Task) => t.(completed := completed))))
  }

  /** `onEditListTitle`: the lists with identifier `id` take the new name; nothing else changes. */
  function EditListTitle(lists: seq<List>, id: int, title: string): (r: seq<List>)
    ensures |r| == |lists|
    ensures forall i :: 0 <= i < |lists| && lists[i].id == id ==>
      r[i].name == title && r[i].id == lists[i].id && r[i].colorId == lists[i].colorId && r[i].tasks == lists[i].tasks
    ensures forall i :: 0 <= i < |lists| && lists[i].id != id ==> r[i] == lists[i]
  {
    UpdateLists(lists, id, (l: List) => l.(name := title))
  }

  /** The sidebar's `onRemove`: exactly the lists with identifier `id` are dropped, the rest keep their order. */
  function RemoveList(lists: seq<List>, id: int): (r: seq<List>)
    ensures IsSubsequence(r, lists)
    ensures forall l :: l in r <==> l in lists && l.id != id
    ensures !HasList(r, id)
    ensures !HasList(lists, id) ==> r == lists
  {
    Filter(lists, (l: List) => l.id != id)
  }

  /** Completing and then restoring the flag every matching task had gives back the same lists. */
  lemma CompleteTaskUndo(lists: seq<List>, listId: int, taskId: int, completed: bool)
    requires forall i, j ::
      0 <= i < |lists| && lists[i].id == listId && 0 <= j < |lists[i].tasks| && lists[i].tasks[j].id == taskId ==>
        lists[i].tasks[j].completed == completed
    ensures CompleteTask(CompleteTask(lists, listId, taskId, !completed), listId, taskId, completed) == lists
  {
    var mid := CompleteTask(lists, listId, taskId, !completed);
    var r := CompleteTask(mid, listId, taskId, completed);
    forall i | 0 <= i < |lists| ensures r[i] == lists[i] {
      if lists[i].id == listId {
        assert |r[i].tasks| == |lists[i].tasks|;
        forall j | 0 <= j < |lists[i].tasks| ensures r[i].tasks[j] == lists[i].tasks[j] {
          assert SameButCompleted(mid[i].tasks[j], lists[i].tasks[j]);
        }
        assert r[i].tasks == lists[i].tasks;
      }
    }
  }

  /** Of two completions of the same task, the later one decides the flag. */
  lemma CompleteTaskLastWins(lists: seq<List>, listId: int, taskId: int, first: bool, second: bool)
    ensures CompleteTask(CompleteTask(lists, listId, taskId, first), listId, taskId, second) ==
      CompleteTask(lists, listId, taskId, second)
  {
    var mid := CompleteTask(lists, listId, taskId, first);
    var r := CompleteTask(mid, listId, taskId, second);
    var direct := CompleteTask(lists, listId, taskId, second);
    forall i | 0 <= i < |lists| ensures r[i] == direct[i] {
      if lists[i].id == listId {
        forall j | 0 <= j < |lists[i].tasks| ensures r[i].tasks[j] == direct[i].tasks[j] {
          assert SameButCompleted(mid[i].tasks[j], lists[i].tasks[j]);
        }
        assert r[i].tasks == direct[i].tasks;
      }
    }
  }

  /** Removing a task a second time changes nothing. */
  lemma RemoveTaskIdempotent(lists: seq<List>, listId: int, taskId: int)
    ensures RemoveTask(RemoveTask(lists, listId, taskId), listId, taskId) == RemoveTask(lists, listId, taskId)
  {
  }

  /** In a matching list each task keeps its multiplicity unless it has the removed identifier. */
  lemma RemoveTaskCount(lists: seq<List>, listId: int, taskId: int, i: int, t: Task)
    requires 0 <= i < |lists| && lists[i].id == listId
    ensures multiset(RemoveTask(lists, listId, taskId)[i].tasks)[t] ==
      if t.id != taskId then multiset(lists[i].tasks)[t] else 0
  {
    FilterCount(lists[i].tasks, (task: Task) => task.id != taskId, t);
  }

  /** Each list keeps its multiplicity unless it has the removed identifier. */
  lemma RemoveListCount(lists: seq<List>, id: int, l: List)
    ensures multiset(RemoveList(lists, id))[l] == if l.id != id then multiset(lists)[l] else 0
  {
    FilterCount(lists, (list: List) => list.id != id, l);
  }

  /** With task identifiers unique in the list, removal drops exactly one entry. */
  lemma RemoveUniqueTaskDropsOne(lists: seq<List>, listId: int, taskId: int, i: int, k: int)
    requires 0 <= i < |lists| && lists[i].id == listId
    requires 0 <= k < |lists[i].tasks| && lists[i].tasks[k].id == taskId
    requires forall j :: 0 <= j < |lists[i].tasks| && j != k ==> lists[i].tasks[j].id != taskId
    ensures |RemoveTask(lists, listId, taskId)[i].tasks| == |lists[i].tasks| - 1
  {
    FilterDropsOne(lists[i].tasks, (t: Task) => t.id != taskId, k);
  }

  /**
   * Looking a list up after an update that keeps identifiers finds the list
   * found before, with the update applied when it is the updated one.
   */
  lemma FindAfterUpdate(lists: seq<List>, id: int, f: List -> List, n: int)
    requires forall l :: f(l).id == l.id
    ensures FindList(UpdateLists(lists, id, f), n) ==
      match FindList(lists, n)
      case None => None
      case Some(l) => Some(if l.id == id then f(l) else l)
  {
    var r := UpdateLists(lists, id, f);
    assert forall i :: 0 <= i < |lists| ==> r[i].id == lists[i].id;
    match FindList(lists, n)
    case None =>
      assert !HasList(r, n);
    case Some(l) =>
      var i :| IsFirstWithId(lists, n, i) && lists[i] == l;
      assert IsFirstWithId(r, n, i);
      FindListAt(r, n, i);
  }

  /**
   * The active list re-derived after `onAddTask` is the previously active
   * list with the task appended when it is the list the task was added to —
   * what the source shows through the shared list object.
   */
  lemma ActiveListAfterAddTask(lists: seq<List>, listId: int, taskObj: Task, path: string)
    ensures ActiveList(AddTask(lists, listId, taskObj), path) ==
      match ActiveList(lists, path)
      case None => None
      case Some(l) => Some(if l.id == listId then l.(tasks := l.tasks + [taskObj]) else l)
  {
    var f := (l: List) => l.(tasks := l.tasks + [taskObj]);
    match ToNumber(SecondPiece(path))
    case None =>
    case Some(n) =>
      FindAfterUpdate(lists, listId, f, n);
  }
}
