/**
 * The application's state store: the task list, the active-task pointer, the
 * timer settings, the statistics counters and the theme, and the seven
 * updaters. Each updater builds a new snapshot from the old one; the store
 * object that swaps snapshots in is StoreHook.StoreObject.
 *
 * `crypto.randomUUID()` and `Date.now()` are foreign calls: the id and the
 * creation time of a new task are parameters here.
 */
module Store {
  import opened Types

  datatype Theme = Light | Dark

  datatype State = State(
    tasks: seq<Task>,
    activeTaskId: Option<string>,
    timerSettings: TimerSettings,
    statistics: Statistics,
    theme: Theme)

  /** What `addTask` is given: a task without its id, creation time and session count. */
  datatype NewTask = NewTask(
    title: string,
    description: string,
    completed: bool,
    priority: TaskPriority,
    category: TaskCategory,
    completedAt: Option<int>)

  /**
   * A `Partial<Task>`: every field may be absent. A present `completedAt`
   * may itself be `undefined`, hence the nested option.
   */
  datatype TaskUpdate = TaskUpdate(
    id: Option<string>,
    title: Option<string>,
    description: Option<string>,
    completed: Option<bool>,
    priority: Option<TaskPriority>,
    category: Option<TaskCategory>,
    createdAt: Option<int>,
    completedAt: Option<Option<int>>,
    pomodorosCompleted: Option<int>)

  /** A `Partial<TimerSettings>`. */
  datatype SettingsUpdate = SettingsUpdate(
    workDuration: Option<int>,
    shortBreakDuration: Option<int>,
    longBreakDuration: Option<int>,
    longBreakInterval: Option<int>)

  /** The value an object spread leaves in a field: the update's if it has one. */
  function Or<T>(o: Option<T>, default: T): T {
    match o
    case Some(v) => v
    case None => default
  }

  /** No two tasks share an id, as fresh ids from `addTask` guarantee. */
  predicate UniqueIds(tasks: seq<Task>) {
    forall i, j :: 0 <= i < j < |tasks| ==> tasks[i].id != tasks[j].id
  }

  predicate HasId(tasks: seq<Task>, id: string) {
    exists i :: 0 <= i < |tasks| && tasks[i].id == id
  }

  /** The store invariant: distinct ids and counters that never went below zero. */
  predicate Valid(s: State) {
    && UniqueIds(s.tasks)
    && s.statistics.tasksCompleted >= 0
    && s.statistics.pomodorosCompleted >= 0
    && s.statistics.totalWorkMinutes >= 0
  }

  /** The state a first visit starts from. */
  function Initial(): (s: State)
    ensures Valid(s)
    ensures s.tasks == [] && s.activeTaskId == None && s.theme == Light
    ensures s.timerSettings == TimerSettings(25, 5, 15, 4)
    ensures s.statistics == Statistics(0, 0, 0)
  {
    State([], None, TimerSettings(25, 5, 15, 4), Statistics(0, 0, 0), Light)
  }

  /** The index of the first task with the given id, or |tasks| when there is none. */
  function FirstIndex(tasks: seq<Task>, id: string): (k: nat)
    ensures k <= |tasks|
    ensures k < |tasks| ==> tasks[k].id == id
    ensures forall j :: 0 <= j < k ==> tasks[j].id != id
  {
    if tasks == [] then 0
    else if tasks[0].id == id then 0
    else 1 + FirstIndex(tasks[1..], id)
  }

  /** `tasks.find((t) => t.id === id)`. */
  function FindById(tasks: seq<Task>, id: string): (r: Option<Task>)
    ensures r.None? <==> !HasId(tasks, id)
    ensures r.Some? ==> r.value in tasks && r.value.id == id
    ensures r.Some? ==> exists k :: 0 <= k < |tasks| && r.value == tasks[k] && forall j :: 0 <= j < k ==> tasks[j].id != id
  {
    var k := FirstIndex(tasks, id);
    if k < |tasks| then Some(tasks[k]) else None
  }

  /** With distinct ids, `find` returns the one task that has the id. */
  lemma FindUnique(tasks: seq<Task>, k: nat)
    requires UniqueIds(tasks) && k < |tasks|
    ensures FindById(tasks, tasks[k].id) == Some(tasks[k])
  {
    var f := FirstIndex(tasks, tasks[k].id);
    assert f == k;
  }

  /**
   * `addTask`: the given fields, a fresh id, the creation time and no
   * sessions, appended at the end. Nothing else changes.
   */
  function AddTask(s: State, t: NewTask, id: string, now: int): (r: State)
    ensures |r.tasks| == |s.tasks| + 1
    ensures r.tasks[..|s.tasks|] == s.tasks
    ensures var n := r.tasks[|s.tasks|];
      && n.id == id && n.createdAt == now && n.pomodorosCompleted == 0
      && n.title == t.title && n.description == t.description && n.completed == t.completed
      && n.priority == t.priority && n.category == t.category && n.completedAt == t.completedAt
    ensures r.activeTaskId == s.activeTaskId && r.timerSettings == s.timerSettings
    ensures r.statistics == s.statistics && r.theme == s.theme
  {
    var task := Task(id, t.title, t.description, t.completed, t.priority, t.category, now, t.completedAt, 0);
    s.(tasks := s.tasks + [task])
  }

  /** `{ ...task, ...updates }`. */
  function Merge(t: Task, u: TaskUpdate): Task {
    Task(
      Or(u.id, t.id),
      Or(u.title, t.title),
      Or(u.description, t.description),
      Or(u.completed, t.completed),
      Or(u.priority, t.priority),
      Or(u.category, t.category),
      Or(u.createdAt, t.createdAt),
      Or(u.completedAt, t.completedAt),
      Or(u.pomodorosCompleted, t.pomodorosCompleted))
  }

  /** Merging the same update twice is merging it once, and an empty update changes nothing. */
  lemma MergeIdempotent(t: Task, u: TaskUpdate)
    ensures Merge(Merge(t, u), u) == Merge(t, u)
    ensures Merge(t, TaskUpdate(None, None, None, None, None, None, None, None, None)) == t
  {
  }

  /**
   * The condition `updates.completed && !state.tasks.find(...)?.completed`:
   * the update sets `completed` to true and the first task with the id is
   * not completed, or no task has the id at all.
   */
  predicate CountsCompletion(tasks: seq<Task>, id: string, u: TaskUpdate) {
    u.completed == Some(true) && !(FindById(tasks, id).Some? && FindById(tasks, id).value.completed)
  }

  /**
   * `updateTask`: every task with the id gets the update merged in, in place
   * in the list; the completed-task counter rises by one on a completion.
   */
  function UpdateTask(s: State, id: string, u: TaskUpdate): (r: State)
    ensures |r.tasks| == |s.tasks|
    ensures forall i :: 0 <= i < |s.tasks| && s.tasks[i].id != id ==> r.tasks[i] == s.tasks[i]
    ensures forall i :: 0 <= i < |s.tasks| && s.tasks[i].id == id ==> r.tasks[i] == Merge(s.tasks[i], u)
    ensures r.statistics.pomodorosCompleted == s.statistics.pomodorosCompleted
    ensures r.statistics.totalWorkMinutes == s.statistics.totalWorkMinutes
    ensures r.statistics.tasksCompleted
         == s.statistics.tasksCompleted + if CountsCompletion(s.tasks, id, u) then 1 else 0
    ensures r.activeTaskId == s.activeTaskId && r.timerSettings == s.timerSettings && r.theme == s.theme
  {
    var tasks := seq(|s.tasks|, i requires 0 <= i < |s.tasks| =>
      if s.tasks[i].id == id then Merge(s.tasks[i], u) else s.tasks[i]);
    var statistics :=
      if CountsCompletion(s.tasks, id, u)
      then s.statistics.(tasksCompleted := s.statistics.tasksCompleted + 1)
      else s.statistics;
    s.(tasks := tasks, statistics := statistics)
  }

  /** `tasks.filter((task) => task.id !== id)`. */
  function RemoveId(tasks: seq<Task>, id: string): (r: seq<Task>)
    ensures |r| <= |tasks|
    ensures forall t :: t in r <==> t in tasks && t.id != id
  {
    if tasks == [] then []
    else (if tasks[0].id == id then [] else [tasks[0]]) + RemoveId(tasks[1..], id)
  }

  /** Filtering keeps the relative order of the tasks it keeps. */
  lemma {:induction false} RemoveIdAppend(a: seq<Task>, b: seq<Task>, id: string)
    ensures RemoveId(a + b, id) == RemoveId(a, id) + RemoveId(b, id)
  {
    if a != [] {
      assert (a + b)[1..] == a[1..] + b;
      RemoveIdAppend(a[1..], b, id);
    } else {
      assert a + b == b;
    }
  }

  /** Filtering out an id no task has changes nothing. */
  lemma {:induction false} RemoveAbsentId(tasks: seq<Task>, id: string)
    requires !HasId(tasks, id)
    ensures RemoveId(tasks, id) == tasks
  {
    if tasks != [] {
      assert !HasId(tasks[1..], id) by {
        forall i | 0 <= i < |tasks[1..]| ensures tasks[1..][i].id != id {
          assert tasks[1..][i] == tasks[i + 1];
        }
      }
      RemoveAbsentId(tasks[1..], id);
    }
  }

  /**
   * `deleteTask`: the tasks with the id are gone, the others stay, and the
   * active pointer is cleared exactly when it named that id.
   */
  function DeleteTask(s: State, id: string): (r: State)
    ensures forall t :: t in r.tasks <==> t in s.tasks && t.id != id
    ensures !HasId(r.tasks, id)
    ensures r.activeTaskId == None <==> s.activeTaskId == None || s.activeTaskId == Some(id)
    ensures r.activeTaskId.Some? ==> r.activeTaskId == s.activeTaskId
    ensures r.timerSettings == s.timerSettings && r.statistics == s.statistics && r.theme == s.theme
  {
    var tasks := RemoveId(s.tasks, id);
    assert !HasId(tasks, id) by {
      forall i | 0 <= i < |tasks| ensures tasks[i].id != id {
        assert tasks[i] in tasks;
      }
    }
    s.(tasks := tasks,
       activeTaskId := if s.activeTaskId == Some(id) then None else s.activeTaskId)
  }

  /** `setActiveTaskId`: stores whatever id it is given; nothing checks that a task has it. */
  function SetActiveTaskId(s: State, id: Option<string>): (r: State)
    ensures r.activeTaskId == id
    ensures r.tasks == s.tasks && r.timerSettings == s.timerSettings
    ensures r.statistics == s.statistics && r.theme == s.theme
  {
    s.(activeTaskId := id)
  }

  /** `{ ...state.timerSettings, ...settings }`. */
  function MergeSettings(ts: TimerSettings, u: SettingsUpdate): (r: TimerSettings)
    ensures u.workDuration.None? ==> r.workDuration == ts.workDuration
    ensures u.shortBreakDuration.None? ==> r.shortBreakDuration == ts.shortBreakDuration
    ensures u.longBreakDuration.None? ==> r.longBreakDuration == ts.longBreakDuration
    ensures u.longBreakInterval.None? ==> r.longBreakInterval == ts.longBreakInterval
    ensures u.workDuration.Some? ==> r.workDuration == u.workDuration.value
    ensures u.shortBreakDuration.Some? ==> r.shortBreakDuration == u.shortBreakDuration.value
    ensures u.longBreakDuration.Some? ==> r.longBreakDuration == u.longBreakDuration.value
    ensures u.longBreakInterval.Some? ==> r.longBreakInterval == u.longBreakInterval.value
  {
    TimerSettings(
      Or(u.workDuration, ts.workDuration),
      Or(u.shortBreakDuration, ts.shortBreakDuration),
      Or(u.longBreakDuration, ts.longBreakDuration),
      Or(u.longBreakInterval, ts.longBreakInterval))
  }

  /** `updateTimerSettings`: the supplied fields overwrite, without validation. */
  function UpdateTimerSettings(s: State, u: SettingsUpdate): (r: State)
    ensures r.timerSettings == MergeSettings(s.timerSettings, u)
    ensures r.tasks == s.tasks && r.activeTaskId == s.activeTaskId
    ensures r.statistics == s.statistics && r.theme == s.theme
  {
    s.(timerSettings := MergeSettings(s.timerSettings, u))
  }

  /** Applying the same settings update twice is the same as applying it once; an empty one changes nothing. */
  lemma SettingsUpdateIdempotent(s: State, u: SettingsUpdate)
    ensures UpdateTimerSettings(UpdateTimerSettings(s, u), u) == UpdateTimerSettings(s, u)
    ensures UpdateTimerSettings(s, SettingsUpdate(None, None, None, None)) == s
  {
  }

  /**
   * `incrementPomodoro`: one more session on every task with the id, one more
   * in the statistics and the current work duration added to the focus
   * minutes, whether or not a task has the id.
   */
  function IncrementPomodoro(s: State, taskId: string): (r: State)
    ensures |r.tasks| == |s.tasks|
    ensures forall i :: 0 <= i < |s.tasks| && s.tasks[i].id != taskId ==> r.tasks[i] == s.tasks[i]
    ensures forall i :: 0 <= i < |s.tasks| && s.tasks[i].id == taskId ==>
      r.tasks[i] == s.tasks[i].(pomodorosCompleted := s.tasks[i].pomodorosCompleted + 1)
    ensures r.statistics.pomodorosCompleted == s.statistics.pomodorosCompleted + 1
    ensures r.statistics.totalWorkMinutes == s.statistics.totalWorkMinutes + s.timerSettings.workDuration
    ensures r.statistics.tasksCompleted == s.statistics.tasksCompleted
    ensures r.activeTaskId == s.activeTaskId && r.timerSettings == s.timerSettings && r.theme == s.theme
  {
    var tasks := seq(|s.tasks|, i requires 0 <= i < |s.tasks| =>
      if s.tasks[i].id == taskId
      then s.tasks[i].(pomodorosCompleted := s.tasks[i].pomodorosCompleted + 1)
      else s.tasks[i]);
    s.(tasks := tasks,
       statistics := s.statistics.(
         pomodorosCompleted := s.statistics.pomodorosCompleted + 1,
         totalWorkMinutes := s.statistics.totalWorkMinutes + s.timerSettings.workDuration))
  }

  /** `toggleTheme`. */
  function ToggleTheme(s: State): (r: State)
    ensures r.theme != s.theme
    ensures r.tasks == s.tasks && r.activeTaskId == s.activeTaskId
    ensures r.timerSettings == s.timerSettings && r.statistics == s.statistics
  {
    s.(theme := if s.theme == Light then Dark else Light)
  }

  /** Toggling the theme twice gives back the state it started from. */
  lemma ToggleThemeTwice(s: State)
    ensures ToggleTheme(ToggleTheme(s)) == s
  {
  }

  // ---------------------------------------------------------------------------
  // Properties of the updaters taken together

  /** One call of one of the seven updaters, with the arguments the caller supplies. */
  datatype Action =
    | Add(task: NewTask, newId: string, now: int)
    | Update(id: string, changes: TaskUpdate)
    | Delete(id: string)
    | SetActive(active: Option<string>)
    | ChangeSettings(settings: SettingsUpdate)
    | Increment(id: string)
    | FlipTheme

  function Apply(s: State, a: Action): State {
    match a
    case Add(t, id, now) => AddTask(s, t, id, now)
    case Update(id, u) => UpdateTask(s, id, u)
    case Delete(id) => DeleteTask(s, id)
    case SetActive(id) => SetActiveTaskId(s, id)
    case ChangeSettings(u) => UpdateTimerSettings(s, u)
    case Increment(id) => IncrementPomodoro(s, id)
    case FlipTheme => ToggleTheme(s)
  }

  /**
   * What a caller must ensure for the ids to stay distinct: a new task gets
   * an id no task has, and an update does not rename a task to another id.
   * A negative work duration would make the focus minutes fall.
   */
  predicate Admissible(s: State, a: Action) {
    match a
    case Add(_, id, _) => !HasId(s.tasks, id)
    case Update(id, u) => u.id.None? || u.id == Some(id)
    case Increment(_) => s.timerSettings.workDuration >= 0
    case _ => true
  }

  /** Every admissible updater keeps the store invariant. */
  lemma ValidPreserved(s: State, a: Action)
    requires Valid(s) && Admissible(s, a)
    ensures Valid(Apply(s, a))
  {
    var r := Apply(s, a);
    match a
    case Add(t, id, now) =>
      forall i, j | 0 <= i < j < |r.tasks| ensures r.tasks[i].id != r.tasks[j].id {
        if j < |s.tasks| {
          assert r.tasks[i] == s.tasks[i] && r.tasks[j] == s.tasks[j];
        } else {
          assert r.tasks[i] == s.tasks[i];
        }
      }
    case Update(id, u) =>
      forall i, j | 0 <= i < j < |r.tasks| ensures r.tasks[i].id != r.tasks[j].id {
        assert r.tasks[i].id == s.tasks[i].id && r.tasks[j].id == s.tasks[j].id;
      }
    case Delete(id) =>
      DeleteKeepsUniqueIds(s.tasks, id);
    case SetActive(_) =>
    case ChangeSettings(_) =>
    case Increment(id) =>
      forall i, j | 0 <= i < j < |r.tasks| ensures r.tasks[i].id != r.tasks[j].id {
        assert r.tasks[i].id == s.tasks[i].id && r.tasks[j].id == s.tasks[j].id;
      }
    case FlipTheme =>
  }

  lemma {:induction false} DeleteKeepsUniqueIds(tasks: seq<Task>, id: string)
    requires UniqueIds(tasks)
    ensures UniqueIds(RemoveId(tasks, id))
  {
    if tasks != [] {
      var rest := RemoveId(tasks[1..], id);
      DeleteKeepsUniqueIds(tasks[1..], id);
      forall t | t in rest ensures t.id != tasks[0].id {
        var k :| 0 <= k < |tasks[1..]| && tasks[1..][k] == t;
        assert tasks[k + 1] == t;
      }
    }
  }

  /**
   * The three counters never fall, whatever updater runs, as long as the
   * work duration is not negative.
   */
  lemma CountersNeverDecrease(s: State, a: Action)
    requires s.timerSettings.workDuration >= 0
    ensures var r := Apply(s, a);
      && r.statistics.tasksCompleted >= s.statistics.tasksCompleted
      && r.statistics.pomodorosCompleted >= s.statistics.pomodorosCompleted
      && r.statistics.totalWorkMinutes >= s.statistics.totalWorkMinutes
  {
  }

  /**
   * Completing a task counts exactly when it was not completed before:
   * re-completing and un-completing leave the counter alone.
   */
  lemma CompletionCountedOnce(s: State, k: nat, u: TaskUpdate)
    requires UniqueIds(s.tasks) && k < |s.tasks|
    ensures var r := UpdateTask(s, s.tasks[k].id, u);
      r.statistics.tasksCompleted == s.statistics.tasksCompleted + 1
      <==> u.completed == Some(true) && !s.tasks[k].completed
    ensures var r := UpdateTask(s, s.tasks[k].id, u);
      r.statistics.tasksCompleted != s.statistics.tasksCompleted
      ==> r.statistics.tasksCompleted == s.statistics.tasksCompleted + 1
  {
    FindUnique(s.tasks, k);
  }

  /** Completing the same task twice counts it once. */
  lemma CompleteTwiceCountsOnce(s: State, k: nat, u: TaskUpdate)
    requires UniqueIds(s.tasks) && k < |s.tasks|
    requires u.completed == Some(true) && (u.id.None? || u.id == Some(s.tasks[k].id))
    ensures var once := UpdateTask(s, s.tasks[k].id, u);
      UpdateTask(once, s.tasks[k].id, u).statistics == once.statistics
  {
    var id := s.tasks[k].id;
    var once := UpdateTask(s, id, u);
    assert UniqueIds(once.tasks) by {
      forall i, j | 0 <= i < j < |once.tasks| ensures once.tasks[i].id != once.tasks[j].id {
        assert once.tasks[i].id == s.tasks[i].id && once.tasks[j].id == s.tasks[j].id;
      }
    }
    assert once.tasks[k].id == id && once.tasks[k].completed;
    FindUnique(once.tasks, k);
  }

  /** The quirk of the find-based test: an id no task has still counts as a completion. */
  lemma UnknownIdCountsCompletion(s: State, id: string, u: TaskUpdate)
    requires !HasId(s.tasks, id) && u.completed == Some(true)
    ensures UpdateTask(s, id, u).statistics.tasksCompleted == s.statistics.tasksCompleted + 1
    ensures UpdateTask(s, id, u).tasks == s.tasks
  {
  }

  /**
   * Deleting a task just added with a fresh id gives the old task list back;
   * only the pointer is cleared if it happened to name that id.
   */
  lemma DeleteUndoesAdd(s: State, t: NewTask, id: string, now: int)
    requires !HasId(s.tasks, id)
    ensures DeleteTask(AddTask(s, t, id, now), id)
         == s.(activeTaskId := if s.activeTaskId == Some(id) then None else s.activeTaskId)
  {
    var added := AddTask(s, t, id, now);
    assert added.tasks == s.tasks + [added.tasks[|s.tasks|]];
    RemoveIdAppend(s.tasks, [added.tasks[|s.tasks|]], id);
    RemoveAbsentId(s.tasks, id);
    assert RemoveId([added.tasks[|s.tasks|]], id) == [];
  }
}
