/**
 * The task list: the order it shows the tasks in, and what its buttons ask
 * of the store. The order is computed on a copy; the store's own list keeps
 * its order, which here holds because sorting is a function of the list.
 */
module TaskList {
  import opened Types
  import S = Store

  /** The comparator: negative puts `a` first. Open tasks come first, then the newest first. */
  function Compare(a: Task, b: Task): int {
    if a.completed == b.completed then b.createdAt - a.createdAt
    else if a.completed then 1 else -1
  }

  predicate Precedes(a: Task, b: Task) {
    Compare(a, b) <= 0
  }

  /** The comparator is consistent, so the order a stable sort produces is well defined. */
  lemma CompareConsistent(a: Task, b: Task, c: Task)
    ensures Compare(a, b) == -Compare(b, a)
    ensures Precedes(a, b) || Precedes(b, a)
    ensures Precedes(a, b) && Precedes(b, c) ==> Precedes(a, c)
  {
  }

  /** Each task may precede the next one. */
  predicate Ordered(ts: seq<Task>) {
    forall i :: 0 <= i < |ts| - 1 ==> Precedes(ts[i], ts[i + 1])
  }

  /** Inserts `t` in front of the first task it may precede, so before every task equal to it. */
  function Insert(t: Task, sorted: seq<Task>): (r: seq<Task>)
    requires Ordered(sorted)
    ensures Ordered(r)
    ensures multiset(r) == multiset(sorted) + multiset{t}
    ensures r[0] == t || r[0] == sorted[0]
  {
    if sorted == [] || Precedes(t, sorted[0]) then
      [t] + sorted
    else
      assert sorted == [sorted[0]] + sorted[1..];
      [sorted[0]] + Insert(t, sorted[1..])
  }

  /** `[...tasks].sort(compare)`: insertion sort, which is stable like the built-in sort. */
  function SortedTasks(tasks: seq<Task>): (r: seq<Task>)
    ensures Ordered(r)
    ensures multiset(r) == multiset(tasks)
  {
    if tasks == [] then []
    else
      assert tasks == [tasks[0]] + tasks[1..];
      Insert(tasks[0], SortedTasks(tasks[1..]))
  }

  /** In an ordered list every task may precede every later one, not just the next. */
  lemma {:induction false} OrderedPairwise(ts: seq<Task>, i: nat, j: nat)
    requires Ordered(ts) && i < j < |ts|
    ensures Precedes(ts[i], ts[j])
    decreases j - i
  {
    if i + 1 < j {
      OrderedPairwise(ts, i + 1, j);
      CompareConsistent(ts[i], ts[i + 1], ts[j]);
    }
  }

  /**
   * The list shows the store's tasks, each as often as the store has it;
   * every open task comes before every completed one, and within each group
   * the newest comes first.
   */
  lemma SortedListOrder(tasks: seq<Task>)
    ensures var r := SortedTasks(tasks);
      && |r| == |tasks|
      && multiset(r) == multiset(tasks)
      && (forall i, j :: 0 <= i < j < |r| && r[i].completed ==> r[j].completed)
      && (forall i, j :: 0 <= i < j < |r| && r[i].completed == r[j].completed ==> r[i].createdAt >= r[j].createdAt)
  {
    var r := SortedTasks(tasks);
    assert |multiset(r)| == |multiset(tasks)|;
    forall i, j | 0 <= i < j < |r| ensures r[i].completed ==> r[j].completed {
      OrderedPairwise(r, i, j);
    }
    forall i, j | 0 <= i < j < |r| && r[i].completed == r[j].completed
      ensures r[i].createdAt >= r[j].createdAt
    {
      OrderedPairwise(r, i, j);
    }
  }

  // ---------------------------------------------------------------------------
  // The buttons of one row, as the store calls they make

  function CompletedOnly(done: bool): S.TaskUpdate {
    S.TaskUpdate(None, None, None, Some(done), None, None, None, None, None)
  }

  function TitleOnly(title: string): S.TaskUpdate {
    S.TaskUpdate(None, Some(title), None, None, None, None, None, None, None)
  }

  /** The check button: `updateTask(task.id, { completed: !task.completed })`. */
  function OnToggle(t: Task): (a: S.Action)
    ensures a.Update? && a.id == t.id && a.changes.completed == Some(!t.completed)
  {
    S.Update(t.id, CompletedOnly(!t.completed))
  }

  /**
   * The edit button, given what the prompt returned (None when cancelled):
   * an empty or cancelled answer changes nothing.
   */
  function OnEdit(t: Task, answer: Option<string>): (a: Option<S.Action>)
    ensures a.Some? <==> answer.Some? && answer.value != ""
    ensures a.Some? ==> a.value == S.Update(t.id, TitleOnly(answer.value))
  {
    if answer.Some? && answer.value != "" then Some(S.Update(t.id, TitleOnly(answer.value))) else None
  }

  /** The timer button. */
  function OnActivate(t: Task): (a: S.Action)
    ensures a == S.SetActive(Some(t.id))
  {
    S.SetActive(Some(t.id))
  }

  /** The trash button. */
  function OnDelete(t: Task): (a: S.Action)
    ensures a == S.Delete(t.id)
  {
    S.Delete(t.id)
  }

  /**
   * Checking a task flips its completion and nothing else; the completed
   * counter rises exactly when the task was open.
   */
  lemma ToggleFlipsOneTask(s: S.State, k: nat)
    requires S.UniqueIds(s.tasks) && k < |s.tasks|
    ensures var r := S.Apply(s, OnToggle(s.tasks[k]));
      && |r.tasks| == |s.tasks|
      && r.tasks[k] == s.tasks[k].(completed := !s.tasks[k].completed)
      && (forall i :: 0 <= i < |s.tasks| && i != k ==> r.tasks[i] == s.tasks[i])
      && r.statistics.tasksCompleted == s.statistics.tasksCompleted + if s.tasks[k].completed then 0 else 1
  {
    S.FindUnique(s.tasks, k);
  }

  /** Checking a task twice gives back the task list it started from. */
  lemma ToggleTwiceRestoresTasks(s: S.State, k: nat)
    requires S.UniqueIds(s.tasks) && k < |s.tasks|
    ensures var r1 := S.Apply(s, OnToggle(s.tasks[k]));
      S.Apply(r1, OnToggle(r1.tasks[k])).tasks == s.tasks
  {
    ToggleFlipsOneTask(s, k);
    var r1 := S.Apply(s, OnToggle(s.tasks[k]));
    assert S.UniqueIds(r1.tasks) by {
      forall i, j | 0 <= i < j < |r1.tasks| ensures r1.tasks[i].id != r1.tasks[j].id {
        assert r1.tasks[i].id == s.tasks[i].id && r1.tasks[j].id == s.tasks[j].id;
      }
    }
    ToggleFlipsOneTask(r1, k);
  }

  /** An accepted edit renames that one task and leaves everything else as it was. */
  lemma EditRenamesOneTask(s: S.State, k: nat, answer: string)
    requires S.UniqueIds(s.tasks) && k < |s.tasks| && answer != ""
    ensures var r := S.Apply(s, OnEdit(s.tasks[k], Some(answer)).value);
      && |r.tasks| == |s.tasks|
      && r.tasks[k] == s.tasks[k].(title := answer)
      && (forall i :: 0 <= i < |s.tasks| && i != k ==> r.tasks[i] == s.tasks[i])
      && r.statistics == s.statistics
  {
  }

  /** The trash button removes exactly the task in that row and keeps the order of the others. */
  lemma DeleteRemovesOneTask(s: S.State, k: nat)
    requires S.UniqueIds(s.tasks) && k < |s.tasks|
    ensures S.Apply(s, OnDelete(s.tasks[k])).tasks == s.tasks[..k] + s.tasks[k + 1..]
  {
    var id := s.tasks[k].id;
    var before, after := s.tasks[..k], s.tasks[k + 1..];
    assert s.tasks == (before + [s.tasks[k]]) + after;
    assert !S.HasId(before, id) by {
      forall i | 0 <= i < |before| ensures before[i].id != id {
        assert before[i] == s.tasks[i];
      }
    }
    assert !S.HasId(after, id) by {
      forall i | 0 <= i < |after| ensures after[i].id != id {
        assert after[i] == s.tasks[k + 1 + i];
      }
    }
    S.RemoveAbsentId(before, id);
    S.RemoveAbsentId(after, id);
    S.RemoveIdAppend(before, [s.tasks[k]], id);
    assert S.RemoveId([s.tasks[k]], id) == [];
    assert S.RemoveId(before + [s.tasks[k]], id) == before;
    S.RemoveIdAppend(before + [s.tasks[k]], after, id);
  }
}
