/**
 * The records the controller holds: lists with their embedded tasks, and the
 * flat task collection. Records are values; the lookup `lists.find(...)` by
 * identifier is shared by the filters and the active-list derivation.
 */
module Model {
  import opened Wrappers

  /**
   * A task; `dateOverdue` is its due instant in milliseconds, or None when the
   * field is absent or does not parse (a `null` date is the instant 0).
   */
  datatype Task = Task(id: int, listId: int, text: string, completed: bool, dateOverdue: Option<int>)

  /** A list, with the ordered copy of its tasks embedded (newest last). */
  datatype List = List(id: int, name: string, colorId: int, tasks: seq<Task>)

  /** Some list in `lists` carries identifier `id`. */
  ghost predicate HasList(lists: seq<List>, id: int)
  {
    exists i :: 0 <= i < |lists| && lists[i].id == id
  }

  /** `i` is the first position of `lists` whose identifier is `id`. */
  ghost predicate IsFirstWithId(lists: seq<List>, id: int, i: int)
  {
    0 <= i < |lists| && lists[i].id == id && forall j :: 0 <= j < i ==> lists[j].id != id
  }

  /** No two lists share an identifier. */
  ghost predicate UniqueIds(lists: seq<List>)
  {
    forall i, j :: 0 <= i < |lists| && 0 <= j < |lists| && lists[i].id == lists[j].id ==> i == j
  }

  /** The scan behind `find`: the first position at or after `from` whose identifier is `id`. */
  function FindFrom(lists: seq<List>, id: int, from: nat): (r: Option<nat>)
    requires from <= |lists|
    requires forall j :: 0 <= j < from ==> lists[j].id != id
    ensures r.Some? ==> IsFirstWithId(lists, id, r.value)
    ensures r.None? ==> !HasList(lists, id)
    decreases |lists| - from
  {
    if from == |lists| then None
    else if lists[from].id == id then Some(from)
    else FindFrom(lists, id, from + 1)
  }

  /** `lists.find(list => list.id === id)`: the first list with identifier `id`, or None (`undefined`). */
  function FindList(lists: seq<List>, id: int): (r: Option<List>)
    ensures r.None? <==> !HasList(lists, id)
    ensures r.Some? ==> exists i :: IsFirstWithId(lists, id, i) && lists[i] == r.value
    ensures r.Some? ==> r.value in lists && r.value.id == id
  {
    match FindFrom(lists, id, 0)
    case None => None
    case Some(i) => Some(lists[i])
  }

  /** The first position with a given identifier is unique, so `find` returns the list at it. */
  lemma FindListAt(lists: seq<List>, id: int, i: int)
    requires IsFirstWithId(lists, id, i)
    ensures FindList(lists, id) == Some(lists[i])
  {
    var r := FindList(lists, id);
    assert HasList(lists, id);
    var k :| IsFirstWithId(lists, id, k) && lists[k] == r.value;
    assert k == i;
  }

  /** With unique identifiers, `find` returns the one list carrying the identifier. */
  lemma FindListUnique(lists: seq<List>, l: List)
    requires UniqueIds(lists) && l in lists
    ensures FindList(lists, l.id) == Some(l)
  {
    var i :| 0 <= i < |lists| && lists[i] == l;
    assert IsFirstWithId(lists, l.id, i);
    FindListAt(lists, l.id, i);
  }
}
