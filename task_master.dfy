/**
 * The state of the to-do screen and the handlers that change it. Each
 * coroutine the screen launches is one atomic transition here: the state
 * after its last write.
 */
module TaskMaster {
  import opened Tasks
  import opened Text
  import opened TaskList

  class TaskListStore {
    var tasks: seq<Task>
    var showDialog: bool
    var nextId: int
    var isLoading: bool

    /** Ids strictly increase along the list and all lie in [1, nextId). */
    ghost predicate Valid()
      reads this
      ensures Valid() ==> IdsDistinct(tasks) && !HasId(tasks, nextId)
    {
      1 <= nextId && IdsIncreasing(tasks) && IdsBelow(tasks, nextId)
    }

    /** The screen's initial state: no tasks, counter at 1, dialog closed, not loading. */
    constructor ()
      ensures Valid()
      ensures tasks == [] && nextId == 1 && !showDialog && !isLoading
    {
      tasks := [];
      showDialog := false;
      nextId := 1;
      isLoading := false;
    }

    /** The add button: opens the dialog. */
    method OpenDialog()
      requires Valid()
      modifies this
      ensures Valid()
      ensures showDialog
      ensures tasks == old(tasks) && nextId == old(nextId) && isLoading == old(isLoading)
    {
      showDialog := true;
    }

    /** Cancel or dismiss: closes the dialog and touches nothing else. */
    method Dismiss()
      requires Valid()
      modifies this
      ensures Valid()
      ensures !showDialog
      ensures tasks == old(tasks) && nextId == old(nextId) && isLoading == old(isLoading)
    {
      showDialog := false;
    }

    /**
     * The block launched on confirm, once it commits: appends a task under
     * the counter, advances the counter, clears the spinner and closes the dialog.
     */
    method CommitAdd(title: string, description: string) returns (t: Task)
      requires Valid()
      modifies this
      ensures Valid()
      ensures t == NewTask(old(nextId), title, description)
      ensures tasks == old(tasks) + [t]
      ensures nextId == old(nextId) + 1
      ensures !isLoading && !showDialog
    {
      isLoading := true;
      t := NewTask(nextId, title, description);
      AddKeepsIds(tasks, nextId, title, description);
      tasks := AddTask(tasks, nextId, title, description);
      nextId := nextId + 1;
      isLoading := false;
      showDialog := false;
    }

    /**
     * The dialog's confirm button: a blank title changes nothing (the dialog
     * stays open); otherwise the add is committed.
     */
    method Confirm(title: string, description: string) returns (added: bool)
      requires Valid()
      modifies this
      ensures Valid()
      ensures added == !IsBlank(title)
      ensures added ==> (tasks == old(tasks) + [NewTask(old(nextId), title, description)]
                         && nextId == old(nextId) + 1 && !isLoading && !showDialog)
      ensures !added ==> (tasks == old(tasks) && nextId == old(nextId)
                          && showDialog == old(showDialog) && isLoading == old(isLoading))
    {
      added := !IsBlank(title);
      if added {
        var _ := CommitAdd(title, description);
      }
    }

    /** The check box of the task with this id: sets its flag, nothing else changes. */
    method Toggle(id: int, checked: bool)
      requires Valid()
      modifies this
      ensures Valid()
      ensures tasks == SetCompleted(old(tasks), id, checked)
      ensures nextId == old(nextId) && showDialog == old(showDialog) && isLoading == old(isLoading)
    {
      SetCompletedKeepsIds(tasks, nextId, id, checked);
      tasks := SetCompleted(tasks, id, checked);
    }

    /** The block launched by a delete button, once it commits: drops the tasks with this id. */
    method Delete(id: int)
      requires Valid()
      modifies this
      ensures Valid()
      ensures tasks == RemoveId(old(tasks), id)
      ensures nextId == old(nextId) && showDialog == old(showDialog) && !isLoading
    {
      isLoading := true;
      RemoveKeepsIds(tasks, nextId, id);
      tasks := RemoveId(tasks, id);
      isLoading := false;
    }

    /** The figures the statistics card shows for the current list. */
    function CardStats(): (s: Stats)
      reads this
      ensures s.total == |tasks| && s.completed == CompletedCount(tasks) && s.pending == OpenCount(tasks)
      ensures 0 <= s.completed <= s.total && s.total == s.completed + s.pending
    {
      StatsOf(tasks)
    }
  }

  /** The screen as a user drives it, checked against the handlers' contracts alone. */
  method UserSession()
  {
    var store := new TaskListStore();
    assert store.CardStats() == Stats(0, 0, 0);

    store.OpenDialog();
    var added := store.Confirm("   ", "ignored");
    assert !added by { assert IsWhitespace(" "[0]); }
    assert store.tasks == [] && store.showDialog;

    added := store.Confirm("Buy milk", "");
    assert added by { assert !IsWhitespace("Buy milk"[0]); }
    assert store.tasks == [Task(1, "Buy milk", "", false)];
    assert store.CardStats() == Stats(1, 0, 1);

    store.OpenDialog();
    var second := store.CommitAdd("Study", "chapter 3");
    assert second.id == 2;
    store.Toggle(1, true);
    assert store.tasks == [Task(1, "Buy milk", "", true), Task(2, "Study", "chapter 3", false)];
    assert CompletedCount(store.tasks[1..]) == 0 by { CompletedCountExtremes(store.tasks[1..]); }
    assert store.CardStats() == Stats(2, 1, 1);

    store.Delete(1);
    store.Delete(2);
    assert store.tasks == [];
    store.Delete(1);
    assert store.tasks == [] && store.nextId == 3;
    assert store.CardStats() == Stats(0, 0, 0);
  }
}
