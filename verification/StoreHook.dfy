/**
 * The store object the components share. It holds the current snapshot and
 * each of its methods swaps in the snapshot the matching updater of module
 * Store computes, which is all that the store's `set` does. Loading and
 * saving the snapshot in local storage is not part of this model: a new
 * store starts from the initial state.
 */
module StoreHook {
  import opened Types
  import S = Store

  class StoreObject {
    var state: S.State

    constructor ()
      ensures state == S.Initial()
    {
      state := S.Initial();
    }

    method AddTask(t: S.NewTask, id: string, now: int)
      modifies this
      ensures state == S.AddTask(old(state), t, id, now)
    {
      state := S.AddTask(state, t, id, now);
    }

    method UpdateTask(id: string, u: S.TaskUpdate)
      modifies this
      ensures state == S.UpdateTask(old(state), id, u)
    {
      state := S.UpdateTask(state, id, u);
    }

    method DeleteTask(id: string)
      modifies this
      ensures state == S.DeleteTask(old(state), id)
    {
      state := S.DeleteTask(state, id);
    }

    method SetActiveTaskId(id: Option<string>)
      modifies this
      ensures state == S.SetActiveTaskId(old(state), id)
    {
      state := S.SetActiveTaskId(state, id);
    }

    method UpdateTimerSettings(u: S.SettingsUpdate)
      modifies this
      ensures state == S.UpdateTimerSettings(old(state), u)
    {
      state := S.UpdateTimerSettings(state, u);
    }

    method IncrementPomodoro(taskId: string)
      modifies this
      ensures state == S.IncrementPomodoro(old(state), taskId)
    {
      state := S.IncrementPomodoro(state, taskId);
    }

    method ToggleTheme()
      modifies this
      ensures state == S.ToggleTheme(old(state))
    {
      state := S.ToggleTheme(state);
    }
  }
}
