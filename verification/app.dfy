/**
 * The controller's state: the list collection, the flat task collection,
 * the current route path, the active list and the three filter toggles.
 * Each handler replaces `lists` the way its `setLists` call does; the effect
 * that re-derives the active list whenever the lists or the path change runs
 * at the end of every method that changes either, so `Valid()` always holds.
 */
module AppState {
  import opened Wrappers
  import opened Model
  import opened Routing
  import Handlers

  class App {
    var lists: seq<List>
    var tasks: seq<Task>
    var path: string
    var activeItem: Option<List>
    var showCompletedTasks: bool
    var showIncompleteTasks: bool
    var showOverdueTasks: bool

    /** The active list is the one the current path selects. */
    ghost predicate Valid()
      reads this
    {
      activeItem == ActiveList(lists, path)
    }

    /** Mounting: empty collections, every toggle off, and the effect's first run. */
    constructor (initialPath: string)
      ensures Valid()
      ensures lists == [] && tasks == [] && path == initialPath && activeItem == None
      ensures !showCompletedTasks && !showIncompleteTasks && !showOverdueTasks
    {
      lists, tasks, path := [], [], initialPath;
      showCompletedTasks, showIncompleteTasks, showOverdueTasks := false, false, false;
      activeItem := ActiveList([], initialPath);
    }

    /** The state setters run with the fetched collections (the requests themselves are not modelled). */
    method Load(fetchedLists: seq<List>, fetchedTasks: seq<Task>)
      modifies this
      ensures Valid()
      ensures lists == fetchedLists && tasks == fetchedTasks && path == old(path)
      ensures showCompletedTasks == old(showCompletedTasks) && showIncompleteTasks == old(showIncompleteTasks)
      ensures showOverdueTasks == old(showOverdueTasks)
    {
      lists := fetchedLists;
      tasks := fetchedTasks;
      activeItem := ActiveList(lists, path);
    }

    method ToggleShowCompletedTasks()
      requires Valid()
      modifies this`showCompletedTasks
      ensures Valid()
      ensures showCompletedTasks == !old(showCompletedTasks)
    {
      showCompletedTasks := !showCompletedTasks;
    }

    method ToggleShowIncompleteTasks()
      requires Valid()
      modifies this`showIncompleteTasks
      ensures Valid()
      ensures showIncompleteTasks == !old(showIncompleteTasks)
    {
      showIncompleteTasks := !showIncompleteTasks;
    }

    method ToggleShowOverdueTasks()
      requires Valid()
      modifies this`showOverdueTasks
      ensures Valid()
      ensures showOverdueTasks == !old(showOverdueTasks)
    {
      showOverdueTasks := !showOverdueTasks;
    }

    /** `history.push(newPath)`: the route changes and the active list is re-derived. */
    method Navigate(newPath: string)
      modifies this`path, this`activeItem
      ensures Valid() && path == newPath
    {
      path := newPath;
      activeItem := ActiveList(lists, path);
    }

    /** `onAddList`: the new list goes last; the existing lists are untouched. */
    method AddList(obj: List)
      modifies this`lists, this`activeItem
      ensures Valid()
      ensures lists == old(lists) + [obj]
    {
      lists := lists + [obj];
      activeItem := ActiveList(lists, path);
    }

    /** `onAddTask`: only the embedded tasks of the matching list grow; the flat tasks are untouched. */
    method AddTask(listId: int, taskObj: Task)
      modifies this`lists, this`activeItem
      ensures Valid()
      ensures lists == Handlers.AddTask(old(lists), listId, taskObj)
    {
      lists := Handlers.AddTask(lists, listId, taskObj);
      activeItem := ActiveList(lists, path);
    }

    /**
     * `onEditTask`, with the prompt's answer as `answer` (None when cancelled):
     * a cancelled or empty answer changes nothing.
     */
    method EditTask(listId: int, taskObj: Task, answer: Option<string>)
      requires Valid()
      modifies this`lists, this`activeItem
      ensures Valid()
      ensures answer == None || answer == Some("") ==> lists == old(lists) && activeItem == old(activeItem)
      ensures answer.Some? && answer.value != "" ==>
        lists == Handlers.EditTaskText(old(lists), listId, taskObj.id, answer.value)
    {
      if answer == None || answer == Some("") {
        return;
      }
      lists := Handlers.EditTaskText(lists, listId, taskObj.id, answer.value);
      activeItem := ActiveList(lists, path);
    }

    /** `onRemoveTask`, with the confirmation's answer as `confirmed`: declining changes nothing. */
    method RemoveTask(listId: int, taskId: int, confirmed: bool)
      requires Valid()
      modifies this`lists, this`activeItem
      ensures Valid()
      ensures !confirmed ==> lists == old(lists) && activeItem == old(activeItem)
      ensures confirmed ==> lists == Handlers.RemoveTask(old(lists), listId, taskId)
    {
      if confirmed {
        lists := Handlers.RemoveTask(lists, listId, taskId);
        activeItem := ActiveList(lists, path);
      }
    }

    /** `onCompleteTask`: the flag changes in the matching list's copy only; the flat tasks are untouched. */
    method CompleteTask(listId: int, taskId: int, completed: bool)
      modifies this`lists, this`activeItem
      ensures Valid()
      ensures lists == Handlers.CompleteTask(old(lists), listId, taskId, completed)
    {
      lists := Handlers.CompleteTask(lists, listId, taskId, completed);
      activeItem := ActiveList(lists, path);
    }

    /** `onEditListTitle`: any title, empty included, is assigned. */
    method EditListTitle(id: int, title: string)
      modifies this`lists, this`activeItem
      ensures Valid()
      ensures lists == Handlers.EditListTitle(old(lists), id, title)
    {
      lists := Handlers.EditListTitle(lists, id, title);
      activeItem := ActiveList(lists, path);
    }

    /** The sidebar's `onRemove`. */
    method RemoveList(id: int)
      modifies this`lists, this`activeItem
      ensures Valid()
      ensures lists == Handlers.RemoveList(old(lists), id)
    {
      lists := Handlers.RemoveList(lists, id);
      activeItem := ActiveList(lists, path);
    }
  }
}
