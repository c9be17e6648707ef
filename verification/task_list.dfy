/** The active-task list of the task manager: it shows the tasks not yet
    done, in stored order, and each row can complete or delete its task. The
    store the commands act on is a list of tasks keyed by id. */
module TaskList {
  import opened Basics
  import opened Task
  import Seqs

  predicate IsActive(t: Task) {
    !t.isCompleted
  }

  /** The list the screen shows. */
  function ActiveTasks(all: seq<Task>): (r: seq<Task>)
    ensures forall i :: 0 <= i < |r| ==> r[i] in all && !r[i].isCompleted
    ensures forall i :: 0 <= i < |all| && !all[i].isCompleted ==> all[i] in r
    ensures Seqs.IsSubsequence(r, all)
  {
    Seqs.FilterSound(all, IsActive);
    Seqs.Filter(all, IsActive)
  }

  /** The "No tasks to complete!" branch. */
  predicate ShowsEmptyState(all: seq<Task>) {
    |ActiveTasks(all)| == 0
  }

  /** The empty state shows exactly when every task is done. */
  lemma EmptyStateIffAllDone(all: seq<Task>)
    ensures ShowsEmptyState(all) <==> forall i :: 0 <= i < |all| ==> all[i].isCompleted
  {
    if forall i :: 0 <= i < |all| ==> all[i].isCompleted {
      Seqs.FilterNone(all, IsActive);
    }
  }

  /** Showing the list of an already filtered list changes nothing. */
  lemma ActiveTasksIdempotent(all: seq<Task>)
    ensures ActiveTasks(ActiveTasks(all)) == ActiveTasks(all)
  {
    Seqs.FilterIdempotent(all, IsActive);
  }

  /** The row's check box: an update with a copy of the task completed at
      `now`, every other field as it was. */
  function CompleteAction(t: Task, now: DateTime): (c: Command)
    ensures c.Update?
    ensures c.task.isCompleted && c.task.completedDate == Some(now)
    ensures c.task.(isCompleted := t.isCompleted, completedDate := t.completedDate) == t
  {
    Update(Complete(t, now))
  }

  /** The row's delete icon: the task itself goes to the delete command. */
  function DeleteAction(t: Task): (c: Command)
    ensures c.Delete? && c.task == t
  {
    Delete(t)
  }

  /** An update by primary key: every stored task with the id of `t` is
      replaced by `t`. */
  function ReplaceById(store: seq<Task>, t: Task): (r: seq<Task>)
    ensures |r| == |store|
    ensures forall i :: 0 <= i < |store| && store[i].id == t.id ==> r[i] == t
    ensures forall i :: 0 <= i < |store| && store[i].id != t.id ==> r[i] == store[i]
    decreases |store|
  {
    if |store| == 0 then []
    else [if store[0].id == t.id then t else store[0]] + ReplaceById(store[1..], t)
  }

  function IdIsNot(id: int): Task -> bool {
    (t: Task) => t.id != id
  }

  function ActiveWithIdNot(id: int): Task -> bool {
    (t: Task) => !t.isCompleted && t.id != id
  }

  /** Executes a command against the store. An insert appends the task as
      given; the id the database would assign is not modelled. */
  function Perform(store: seq<Task>, c: Command): (r: seq<Task>)
    ensures c.Insert? ==> r == store + [c.task]
    ensures c.Update? ==> |r| == |store|
    ensures c.Delete? ==> |r| <= |store| && forall i :: 0 <= i < |r| ==> r[i].id != c.task.id
  {
    match c
    case Insert(t) => store + [t]
    case Update(t) => ReplaceById(store, t)
    case Delete(t) => Seqs.Filter(store, IdIsNot(t.id))
  }

  predicate UniqueIds(store: seq<Task>) {
    forall i, j :: 0 <= i < j < |store| ==> store[i].id != store[j].id
  }

  /** Completing the `i`th task of a store with distinct ids removes exactly
      that task from the active list and keeps the others in order. */
  lemma CompleteLeavesActiveList(store: seq<Task>, i: int, now: DateTime)
    requires UniqueIds(store)
    requires 0 <= i < |store| && IsActive(store[i])
    ensures ActiveTasks(store) == ActiveTasks(store[..i]) + [store[i]] + ActiveTasks(store[i + 1..])
    ensures ActiveTasks(Perform(store, CompleteAction(store[i], now))) ==
      ActiveTasks(store[..i]) + ActiveTasks(store[i + 1..])
    ensures |ActiveTasks(Perform(store, CompleteAction(store[i], now)))| == |ActiveTasks(store)| - 1
  {
    var done := Complete(store[i], now);
    assert Perform(store, CompleteAction(store[i], now)) == store[i := done];
    Seqs.FilterReplaceDrops(store, i, done, IsActive);
  }

  /** Deleting a task removes the active tasks with its id and keeps the
      rest of the active list in order. */
  lemma DeleteLeavesActiveList(store: seq<Task>, t: Task)
    ensures ActiveTasks(Perform(store, DeleteAction(t))) ==
      Seqs.Filter(ActiveTasks(store), IdIsNot(t.id))
  {
    Seqs.FilterFilter(store, IdIsNot(t.id), IsActive, ActiveWithIdNot(t.id));
    Seqs.FilterFilter(store, IsActive, IdIsNot(t.id), ActiveWithIdNot(t.id));
  }
}
