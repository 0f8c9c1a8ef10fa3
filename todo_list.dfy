/**
 * The task manager page: a list of tasks, newest first, each of which can be
 * ticked off, deleted, or cleared once done, shown through one of three
 * filters with a running count of total, pending and completed tasks.
 */
module ToDoList {
  import opened Wrappers
  import opened Text

  /** A task as the page stores it; `completedAt` is absent until the task is ticked. */
  datatype Task = Task(id: string, text: string, completed: bool, completedAt: Option<string>, createdAt: string)

  predicate IsPending(t: Task) {
    !t.completed
  }

  predicate IsCompleted(t: Task) {
    t.completed
  }

  /** `ts.filter(keep)`: the tasks that pass, in their order. */
  function Keep(ts: seq<Task>, keep: Task -> bool): (r: seq<Task>)
    ensures IsSubseq(r, ts)
    ensures forall t :: t in r <==> t in ts && keep(t)
    ensures |r| <= |ts|
    ensures forall t :: multiset(r)[t] == if keep(t) then multiset(ts)[t] else 0
  {
    if ts == [] then []
    else if keep(ts[0]) then
      var rest := Keep(ts[1..], keep);
      assert ([ts[0]] + rest)[1..] == rest;
      assert ts == [ts[0]] + ts[1..];
      assert forall t :: t in ts <==> t == ts[0] || t in ts[1..];
      [ts[0]] + rest
    else
      assert ts == [ts[0]] + ts[1..];
      assert forall t :: t in ts <==> t == ts[0] || t in ts[1..];
      Keep(ts[1..], keep)
  }

  function Pending(ts: seq<Task>): seq<Task> {
    Keep(ts, IsPending)
  }

  function Completed(ts: seq<Task>): seq<Task> {
    Keep(ts, IsCompleted)
  }

  /** `tasks.filter(t => t.id !== id)`. */
  function WithoutTask(ts: seq<Task>, id: string): seq<Task> {
    Keep(ts, (t: Task) => t.id != id)
  }

  /** Every task is either pending or completed, and kept by exactly one of the two filters. */
  lemma {:induction false} PendingCompletedPartition(ts: seq<Task>)
    ensures multiset(Pending(ts)) + multiset(Completed(ts)) == multiset(ts)
    ensures |Pending(ts)| + |Completed(ts)| == |ts|
  {
    var p, c := Pending(ts), Completed(ts);
    forall t ensures (multiset(p) + multiset(c))[t] == multiset(ts)[t] {
      assert multiset(p)[t] == if IsPending(t) then multiset(ts)[t] else 0;
      assert multiset(c)[t] == if IsCompleted(t) then multiset(ts)[t] else 0;
    }
    assert multiset(p) + multiset(c) == multiset(ts);
    assert |multiset(p)| + |multiset(c)| == |multiset(ts)|;
  }

  /** Filtering twice by the same test is filtering once; the opposite test then keeps nothing. */
  lemma {:induction false} KeepTwice(ts: seq<Task>)
    ensures Pending(Pending(ts)) == Pending(ts) && Completed(Completed(ts)) == Completed(ts)
    ensures Completed(Pending(ts)) == [] && Pending(Completed(ts)) == []
  {
    if ts != [] {
      KeepTwice(ts[1..]);
      if ts[0].completed {
        assert Completed(ts)[0] == ts[0] && Completed(ts)[1..] == Completed(ts[1..]);
      } else {
        assert Pending(ts)[0] == ts[0] && Pending(ts)[1..] == Pending(ts[1..]);
      }
    }
  }

  /** Replacing one task changes a filter's size only by what the two tasks contribute. */
  lemma {:induction false} KeepUpdate(ts: seq<Task>, k: nat, x: Task, keep: Task -> bool)
    requires k < |ts|
    ensures |Keep(ts[k := x], keep)| == |Keep(ts, keep)| - (if keep(ts[k]) then 1 else 0) + (if keep(x) then 1 else 0)
  {
    if k > 0 {
      KeepUpdate(ts[1..], k - 1, x, keep);
      assert ts[k := x][1..] == ts[1..][k - 1 := x];
    } else {
      assert ts[k := x][1..] == ts[1..];
    }
  }

  /** Index of the first task with `id` (`tasks.find`), or -1. */
  function FindTask(ts: seq<Task>, id: string): (k: int)
    ensures -1 <= k < |ts|
    ensures k >= 0 ==> ts[k].id == id && forall i :: 0 <= i < k ==> ts[i].id != id
    ensures k < 0 <==> forall i :: 0 <= i < |ts| ==> ts[i].id != id
  {
    if ts == [] then -1
    else if ts[0].id == id then 0
    else
      var k := FindTask(ts[1..], id);
      assert forall i :: 1 <= i < |ts| ==> ts[i] == ts[1..][i - 1];
      if k < 0 then -1 else k + 1
  }

  /** A task ticked or unticked at time `now`. */
  function Flip(t: Task, now: string): (r: Task)
    ensures r.completed == !t.completed
    ensures r.completedAt.Some? <==> r.completed
    ensures r.completed ==> r.completedAt == Some(now)
    ensures r.id == t.id && r.text == t.text && r.createdAt == t.createdAt
  {
    t.(completed := !t.completed, completedAt := if !t.completed then Some(now) else None)
  }

  /** The list after `toggleTask(id)`: the first task with that id flipped, nothing else changed. */
  function Toggled(ts: seq<Task>, id: string, now: string): (r: seq<Task>)
    ensures |r| == |ts|
    ensures FindTask(ts, id) < 0 ==> r == ts
    ensures var k := FindTask(ts, id);
      k >= 0 ==> r[k] == Flip(ts[k], now) && forall i :: 0 <= i < |ts| && i != k ==> r[i] == ts[i]
  {
    var k := FindTask(ts, id);
    if k < 0 then ts else ts[k := Flip(ts[k], now)]
  }

  /** Ticking a task adds one to the completed count; unticking it takes one away. */
  lemma ToggledCounts(ts: seq<Task>, id: string, now: string)
    requires FindTask(ts, id) >= 0
    ensures var k := FindTask(ts, id);
      |Completed(Toggled(ts, id, now))| == |Completed(ts)| + (if ts[k].completed then -1 else 1)
  {
    var k := FindTask(ts, id);
    KeepUpdate(ts, k, Flip(ts[k], now), IsCompleted);
  }

  /** Toggling the same task twice gives every task back its completed flag. */
  lemma {:induction false} ToggledTwice(ts: seq<Task>, id: string, a: string, b: string)
    ensures var r := Toggled(Toggled(ts, id, a), id, b);
      |r| == |ts| && forall i :: 0 <= i < |ts| ==> r[i].completed == ts[i].completed && r[i].id == ts[i].id && r[i].text == ts[i].text
    ensures var k := FindTask(ts, id);
      k >= 0 && !ts[k].completed && ts[k].completedAt == None ==> Toggled(Toggled(ts, id, a), id, b) == ts
  {
    var k := FindTask(ts, id);
    if k >= 0 {
      var once := Toggled(ts, id, a);
      assert FindTask(once, id) == k by {
        assert forall i :: 0 <= i < k ==> once[i] == ts[i];
      }
    }
  }

  /** `getFilteredTasks`: "pending" and "completed" select, anything else shows all. */
  function Filtered(ts: seq<Task>, filter: string): (r: seq<Task>)
    ensures filter == "pending" ==> forall t :: t in r <==> t in ts && !t.completed
    ensures filter == "completed" ==> forall t :: t in r <==> t in ts && t.completed
    ensures filter == "pending" ==> forall t :: multiset(r)[t] == if !t.completed then multiset(ts)[t] else 0
    ensures filter == "completed" ==> forall t :: multiset(r)[t] == if t.completed then multiset(ts)[t] else 0
    ensures filter != "pending" && filter != "completed" ==> r == ts
    ensures IsSubseq(r, ts)
  {
    match filter
    case "pending" => Pending(ts)
    case "completed" => Completed(ts)
    case _ =>
      SubseqRefl(ts);
      ts
  }

  /** The three numbers of `updateStats`. */
  datatype Stats = Stats(total: int, pending: int, completed: int)

  function StatsOf(ts: seq<Task>): (s: Stats)
    ensures s.total == |ts| && s.completed == |Completed(ts)| && s.pending == |Pending(ts)|
    ensures s.pending + s.completed == s.total && 0 <= s.pending && 0 <= s.completed
  {
    PendingCompletedPartition(ts);
    var total := |ts|;
    var completed := |Completed(ts)|;
    Stats(total, total - completed, completed)
  }

  /** The heading and line of the empty-state panel. */
  datatype Message = Message(heading: string, detail: string)

  /** The empty-state message of `render`, chosen by the filter and whether any task exists. */
  function EmptyMessage(filter: string, anyTasks: bool): (m: Message)
    ensures filter == "pending" ==> (m.heading == "All caught up!" <==> anyTasks)
    ensures filter == "pending" && !anyTasks ==> m.heading == "No pending tasks"
    ensures filter == "completed" ==> m.heading == "No completed tasks"
    ensures filter != "pending" && filter != "completed" ==> m.heading == "No tasks yet"
  {
    match filter
    case "pending" =>
      if anyTasks then Message("All caught up!", "You have no pending tasks. Great job!")
      else Message("No pending tasks", "Add your first task to get started!")
    case "completed" => Message("No completed tasks", "Complete some tasks to see them here!")
    case _ => Message("No tasks yet", "Add your first task above to get started with organizing your day!")
  }

  /** What the task list shows. */
  datatype TaskView = EmptyState(message: Message) | Items(shown: seq<Task>)

  class TodoManager {
    var tasks: seq<Task>
    var currentFilter: string

    /** A new manager: `loadTasks` finds nothing saved, so no tasks, filter "all". */
    constructor()
      ensures tasks == [] && currentFilter == "all"
    {
      tasks := [];
      currentFilter := "all";
    }

    /**
     * `addTask` with the input box's value, a fresh id and the time: a blank
     * entry is ignored; otherwise the trimmed text goes first as a pending
     * task and the box is emptied.
     */
    method AddTask(input: string, id: string, now: string) returns (inputAfter: string)
      modifies this
      ensures currentFilter == old(currentFilter)
      ensures Trim(input) == [] ==> tasks == old(tasks) && inputAfter == input
      ensures Trim(input) != [] ==>
        tasks == [Task(id, Trim(input), false, None, now)] + old(tasks) && inputAfter == []
    {
      var text := Trim(input);
      if text == [] {
        return input;
      }
      tasks := [Task(id, text, false, None, now)] + tasks;
      inputAfter := [];
    }

    /** `toggleTask(id)` at time `now`. */
    method ToggleTask(id: string, now: string)
      modifies this
      ensures tasks == Toggled(old(tasks), id, now) && currentFilter == old(currentFilter)
    {
      var k := FindTask(tasks, id);
      if k >= 0 {
        var task := tasks[k];
        task := task.(completed := !task.completed);
        task := task.(completedAt := if task.completed then Some(now) else None);
        tasks := tasks[k := task];
      }
    }

    /**
     * `deleteTask(id)` with its removal finished: only a task shown in the
     * current view can be deleted, and then every task with that id goes.
     */
    method DeleteTask(id: string) returns (removed: bool)
      modifies this
      ensures removed <==> FindTask(Filtered(old(tasks), old(currentFilter)), id) >= 0
      ensures removed ==> forall t :: t in tasks <==> t in old(tasks) && t.id != id
      ensures removed ==> IsSubseq(tasks, old(tasks))
      ensures removed ==> tasks == WithoutTask(old(tasks), id)
      ensures !removed ==> tasks == old(tasks)
      ensures currentFilter == old(currentFilter)
    {
      removed := FindTask(Filtered(tasks, currentFilter), id) >= 0;
      if removed {
        tasks := WithoutTask(tasks, id);
      }
    }

    /**
     * `clearCompleted` with its removal finished: it acts only when some
     * completed task is shown, and then keeps exactly the pending tasks. In
     * the "pending" view no completed task is shown, so nothing is cleared.
     */
    method ClearCompleted() returns (cleared: bool)
      modifies this
      ensures cleared <==> Completed(Filtered(old(tasks), old(currentFilter))) != []
      ensures cleared ==> tasks == Pending(old(tasks)) && forall t :: t in tasks <==> t in old(tasks) && !t.completed
      ensures !cleared ==> tasks == old(tasks)
      ensures old(currentFilter) == "pending" ==> !cleared
      ensures currentFilter == old(currentFilter)
    {
      KeepTwice(tasks);
      cleared := Completed(Filtered(tasks, currentFilter)) != [];
      if cleared {
        tasks := Pending(tasks);
      }
    }

    /** `setFilter(filter)`: any value is taken; an unknown one shows all tasks. */
    method SetFilter(filter: string)
      modifies this
      ensures currentFilter == filter && tasks == old(tasks)
    {
      currentFilter := filter;
    }

    function Stats(): Stats
      reads this
    {
      StatsOf(tasks)
    }

    /** The list part of `render`: the empty-state panel when the view is empty, else the shown tasks. */
    function View(): (v: TaskView)
      reads this
      ensures v.EmptyState? <==> Filtered(tasks, currentFilter) == []
      ensures v.Items? ==> v.shown == Filtered(tasks, currentFilter)
      ensures v.EmptyState? ==> v.message == EmptyMessage(currentFilter, tasks != [])
    {
      var shown := Filtered(tasks, currentFilter);
      if shown == [] then EmptyState(EmptyMessage(currentFilter, tasks != [])) else Items(shown)
    }
  }

  /** The pending view says "All caught up!" exactly when there are tasks and all are completed. */
  lemma AllCaughtUpMeaning(m: TodoManager)
    requires m.currentFilter == "pending"
    ensures (m.View().EmptyState? && m.View().message.heading == "All caught up!")
      <==> m.tasks != [] && forall i :: 0 <= i < |m.tasks| ==> m.tasks[i].completed
  {
    if Pending(m.tasks) != [] {
      var t := Pending(m.tasks)[0];
      assert t in m.tasks && !t.completed;
    }
    if Pending(m.tasks) == [] {
      forall i | 0 <= i < |m.tasks| ensures m.tasks[i].completed {
        assert m.tasks[i] in m.tasks;
      }
    }
  }

  /** After clearing, the stats show no completed task and the same pending tasks. */
  lemma ClearedStats(ts: seq<Task>)
    ensures StatsOf(Pending(ts)).completed == 0
    ensures StatsOf(Pending(ts)).pending == StatsOf(ts).pending
    ensures StatsOf(Pending(ts)).total == StatsOf(ts).pending
  {
    KeepTwice(ts);
  }
}
