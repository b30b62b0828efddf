/**
 * The records every other module is built from: a task, the timer settings
 * and the statistics counters. Numbers are JavaScript numbers in the
 * application; every quantity here is a whole count of minutes, seconds,
 * sessions or milliseconds, so they are modelled as unbounded integers.
 */
module Types {

  /** An optional value: TypeScript's `T | undefined` and `T | null`. */
  datatype Option<+T> = None | Some(value: T)

  /** The three priority levels, spelled 'low' | 'medium' | 'high'. */
  datatype TaskPriority = Low | Medium | High

  /** The five categories, spelled 'work' | 'personal' | 'shopping' | 'health' | 'other'. */
  datatype TaskCategory = Work | Personal | Shopping | Health | Other

  /**
   * The string literal that stands for a priority: the value the persisted
   * tasks carry and the value of the matching option in the form's select,
   * which the form casts back to a priority.
   */
  function PriorityName(p: TaskPriority): (s: string)
    ensures s in {"low", "medium", "high"}
  {
    match p
    case Low => "low"
    case Medium => "medium"
    case High => "high"
  }

  /** Reads a priority back from its string literal; any other string is not a priority. */
  function ParsePriority(s: string): (r: Option<TaskPriority>)
    ensures r.Some? ==> PriorityName(r.value) == s
    ensures r.Some? <==> s in {"low", "medium", "high"}
  {
    if s == "low" then Some(Low)
    else if s == "medium" then Some(Medium)
    else if s == "high" then Some(High)
    else None
  }

  /** The string literal that stands for a category, persisted and offered by the form's select like a priority's. */
  function CategoryName(c: TaskCategory): (s: string)
    ensures s in {"work", "personal", "shopping", "health", "other"}
  {
    match c
    case Work => "work"
    case Personal => "personal"
    case Shopping => "shopping"
    case Health => "health"
    case Other => "other"
  }

  /** Reads a category back from its string literal. */
  function ParseCategory(s: string): (r: Option<TaskCategory>)
    ensures r.Some? ==> CategoryName(r.value) == s
    ensures r.Some? <==> s in {"work", "personal", "shopping", "health", "other"}
  {
    if s == "work" then Some(Work)
    else if s == "personal" then Some(Personal)
    else if s == "shopping" then Some(Shopping)
    else if s == "health" then Some(Health)
    else if s == "other" then Some(Other)
    else None
  }

  /** Each priority and each category has exactly one spelling, and reading it back gives it again. */
  lemma NamesRoundTrip(p: TaskPriority, c: TaskCategory)
    ensures ParsePriority(PriorityName(p)) == Some(p)
    ensures ParseCategory(CategoryName(c)) == Some(c)
  {
  }

  /**
   * A task. `completedAt` is the optional field of the interface; `createdAt`
   * and `pomodorosCompleted` are mandatory.
   */
  datatype Task = Task(
    id: string,
    title: string,
    description: string,
    completed: bool,
    priority: TaskPriority,
    category: TaskCategory,
    createdAt: int,
    completedAt: Option<int>,
    pomodorosCompleted: int)

  /** Durations in minutes and the number of sessions between long breaks. Nothing validates them. */
  datatype TimerSettings = TimerSettings(
    workDuration: int,
    shortBreakDuration: int,
    longBreakDuration: int,
    longBreakInterval: int)

  /** The three running counters. */
  datatype Statistics = Statistics(
    tasksCompleted: int,
    pomodorosCompleted: int,
    totalWorkMinutes: int)
}
