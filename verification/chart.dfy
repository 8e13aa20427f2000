/**
 * The completed-per-list aggregate: the dictionary `completedTasksCount` built
 * by one pass over the flat task collection, and the chart's labels and data.
 */
module Chart {
  import opened Wrappers
  import opened Seqs
  import opened Model

  /** The number of completed tasks in `tasks` that belong to list `listId`. */
  function CompletedIn(tasks: seq<Task>, listId: int): nat
  {
    if tasks == [] then 0
    else
      var last := tasks[|tasks| - 1];
      CompletedIn(tasks[..|tasks| - 1], listId) + (if last.completed && last.listId == listId then 1 else 0)
  }

  /** The count is the length of the filter that keeps the list's completed tasks. */
  lemma {:induction false} CompletedInIsFilterLength(tasks: seq<Task>, listId: int)
    ensures CompletedIn(tasks, listId) == |Filter(tasks, (t: Task) => t.completed && t.listId == listId)|
  {
    var p := (t: Task) => t.completed && t.listId == listId;
    if tasks != [] {
      var init, last := tasks[..|tasks| - 1], tasks[|tasks| - 1];
      assert tasks == init + [last];
      CompletedInIsFilterLength(init, listId);
      FilterAppend(init, [last], p);
      assert [last] == [last] + [];
    }
  }

  /**
   * `completedTasksCount`: a dictionary from list identifier to the number of
   * completed tasks of that list; identifiers with no completed task have no entry.
   */
  method CompletedTasksCount(tasks: seq<Task>) returns (counts: map<int, nat>)
    ensures forall id :: id in counts <==> CompletedIn(tasks, id) > 0
    ensures forall id :: id in counts ==> counts[id] == CompletedIn(tasks, id)
  {
    counts := map[];
    var i := 0;
    while i < |tasks|
      invariant 0 <= i <= |tasks|
      invariant forall id :: id in counts <==> CompletedIn(tasks[..i], id) > 0
      invariant forall id :: id in counts ==> counts[id] == CompletedIn(tasks[..i], id)
    {
      var task := tasks[i];
      if task.completed {
        if task.listId in counts {
          counts := counts[task.listId := counts[task.listId] + 1];
        } else {
          counts := counts[task.listId := 1];
        }
      }
      assert tasks[..i + 1][..i] == tasks[..i];
      i := i + 1;
    }
    assert tasks[..i] == tasks;
  }

  /** The chart input: one label and one value per list (the value is `undefined` for a list with no entry). */
  datatype ChartData = ChartData(labels: seq<string>, data: seq<Option<nat>>)

  /** `chartData.labels` and `chartData.datasets[0].data`, in list order. */
  method BuildChartData(lists: seq<List>, tasks: seq<Task>) returns (chart: ChartData)
    ensures |chart.labels| == |lists| && |chart.data| == |lists|
    ensures forall i :: 0 <= i < |lists| ==> chart.labels[i] == lists[i].name
    ensures forall i :: 0 <= i < |lists| ==>
      chart.data[i] == if CompletedIn(tasks, lists[i].id) > 0 then Some(CompletedIn(tasks, lists[i].id)) else None
  {
    var counts := CompletedTasksCount(tasks);
    var labels := seq(|lists|, i requires 0 <= i < |lists| => lists[i].name);
    var data := seq(|lists|, i requires 0 <= i < |lists| =>
      if lists[i].id in counts then Some(counts[lists[i].id]) else None);
    chart := ChartData(labels, data);
  }
}
