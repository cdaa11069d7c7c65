/** The values the dashboard's handlers compute from the current lists
    before handing them to `setLists`: append, per-list task updates,
    filters by id, a set flip and a re-index by ids. Each is a pure
    function of its inputs; the lemmas relate them to one another. */
module ListOps {
  import opened Types

  // ---------------------------------------------------------------------
  // Creating a list

  /** `[...currentLists, { ...newList, tasks: [] }]` */
  function AppendList(lists: seq<UserList>, rec: ListRecord): (r: seq<UserList>)
    ensures |r| == |lists| + 1 && r[..|lists|] == lists
    ensures r[|lists|] == UserList(rec.id, rec.name, [])
    ensures Ids(r) == Ids(lists) + [rec.id]
  {
    lists + [UserList(rec.id, rec.name, [])]
  }

  // ---------------------------------------------------------------------
  // Tasks inside one list

  /** `lists.map(list => list.id === listId ? { ...list, tasks: [...list.tasks, task] } : list)`:
      the task goes to the end of every list carrying `listId`; every other
      list, and the order and number of lists, stay as they were. */
  function AddTask(lists: seq<UserList>, listId: string, task: Task): (r: seq<UserList>)
    ensures |r| == |lists| && Ids(r) == Ids(lists)
    ensures forall i :: 0 <= i < |lists| && lists[i].id != listId ==> r[i] == lists[i]
    ensures forall i :: 0 <= i < |lists| && lists[i].id == listId ==>
              r[i].name == lists[i].name && r[i].tasks == lists[i].tasks + [task]
  {
    seq(|lists|, i requires 0 <= i < |lists| =>
      if lists[i].id == listId then lists[i].(tasks := lists[i].tasks + [task]) else lists[i])
  }

  /** The two task updates the dashboard applies after a successful `PUT`:
      `{ ...task, isCompleted }` and `{ ...task, taskName: newName }`. */
  datatype TaskEdit = SetCompleted(isCompleted: bool) | SetName(taskName: string)

  /** The field of a task that an edit writes, read back. */
  predicate HasEdit(t: Task, e: TaskEdit) {
    match e
    case SetCompleted(b) => t.isCompleted == b
    case SetName(n) => t.taskName == n
  }

  /** An edit writes its field and keeps the task's id and its other field. */
  function ApplyEdit(t: Task, e: TaskEdit): (r: Task)
    ensures HasEdit(r, e) && r.id == t.id
    ensures e.SetCompleted? ==> r.taskName == t.taskName
    ensures e.SetName? ==> r.isCompleted == t.isCompleted
  {
    match e
    case SetCompleted(b) => t.(isCompleted := b)
    case SetName(n) => t.(taskName := n)
  }

  /** `tasks.map(task => task.id === taskId ? edit(task) : task)` */
  function EditTasks(tasks: seq<Task>, taskId: string, e: TaskEdit): (r: seq<Task>)
    ensures |r| == |tasks|
    ensures forall j :: 0 <= j < |tasks| ==> r[j].id == tasks[j].id
    ensures forall j :: 0 <= j < |tasks| && tasks[j].id != taskId ==> r[j] == tasks[j]
    ensures forall j :: 0 <= j < |tasks| && tasks[j].id == taskId ==> HasEdit(r[j], e)
    // an edit writes one field: the other two are those of the old task
    ensures forall j :: 0 <= j < |tasks| ==>
              (e.SetCompleted? ==> r[j].taskName == tasks[j].taskName) &&
              (e.SetName? ==> r[j].isCompleted == tasks[j].isCompleted)
  {
    seq(|tasks|, j requires 0 <= j < |tasks| =>
      if tasks[j].id == taskId then ApplyEdit(tasks[j], e) else tasks[j])
  }

  /** `toggleTaskCompletion` and `handleRenameTask`: the edit reaches the
      tasks carrying `taskId` inside the lists carrying `listId` and nothing
      else. */
  function UpdateTask(lists: seq<UserList>, listId: string, taskId: string, e: TaskEdit): (r: seq<UserList>)
    ensures |r| == |lists| && Ids(r) == Ids(lists)
    ensures forall i :: 0 <= i < |lists| && lists[i].id != listId ==> r[i] == lists[i]
    ensures forall i :: 0 <= i < |lists| && lists[i].id == listId ==>
              r[i].name == lists[i].name && r[i].tasks == EditTasks(lists[i].tasks, taskId, e)
  {
    seq(|lists|, i requires 0 <= i < |lists| =>
      if lists[i].id == listId then lists[i].(tasks := EditTasks(lists[i].tasks, taskId, e)) else lists[i])
  }

  /** `tasks.filter(task => task.id !== taskId)` */
  function WithoutTask(tasks: seq<Task>, taskId: string): (r: seq<Task>)
    ensures |r| <= |tasks|
    ensures forall i :: 0 <= i < |r| ==> r[i].id != taskId
  {
    if tasks == [] then []
    else if tasks[0].id == taskId then WithoutTask(tasks[1..], taskId)
    else [tasks[0]] + WithoutTask(tasks[1..], taskId)
  }

  /** The filter keeps exactly the tasks with other ids, each as often as
      it occurred. */
  lemma {:induction false} WithoutTaskKeepsOthers(tasks: seq<Task>, taskId: string)
    ensures var r := WithoutTask(tasks, taskId);
      |r| <= |tasks| &&
      (forall t :: t in r ==> t in tasks && t.id != taskId) &&
      (forall t: Task :: t.id != taskId ==> multiset(r)[t] == multiset(tasks)[t])
  {
    if tasks != [] {
      assert tasks == [tasks[0]] + tasks[1..];
      WithoutTaskKeepsOthers(tasks[1..], taskId);
    }
  }

  /** `handleDeleteTask`: every task with `taskId` leaves the lists carrying
      `listId`; other lists keep all their tasks. */
  function RemoveTask(lists: seq<UserList>, listId: string, taskId: string): (r: seq<UserList>)
    ensures |r| == |lists| && Ids(r) == Ids(lists)
    ensures forall i :: 0 <= i < |lists| && lists[i].id != listId ==> r[i] == lists[i]
    ensures forall i :: 0 <= i < |lists| && lists[i].id == listId ==>
              r[i].name == lists[i].name && r[i].tasks == WithoutTask(lists[i].tasks, taskId)
  {
    seq(|lists|, i requires 0 <= i < |lists| =>
      if lists[i].id == listId then lists[i].(tasks := WithoutTask(lists[i].tasks, taskId)) else lists[i])
  }

  // ---------------------------------------------------------------------
  // Deleting a list

  /** `lists.filter(list => list.id !== listId)` */
  function RemoveList(lists: seq<UserList>, listId: string): (r: seq<UserList>)
    ensures |r| <= |lists|
    ensures forall i :: 0 <= i < |r| ==> r[i].id != listId
  {
    if lists == [] then []
    else if lists[0].id == listId then RemoveList(lists[1..], listId)
    else [lists[0]] + RemoveList(lists[1..], listId)
  }

  /** `handleDeleteList`: no list with `listId` is left, and every other
      list stays, as often as it occurred. */
  lemma {:induction false} RemoveListKeepsOthers(lists: seq<UserList>, listId: string)
    ensures var r := RemoveList(lists, listId);
      |r| <= |lists| &&
      (forall l :: l in r ==> l in lists && l.id != listId) &&
      (forall l: UserList :: l.id != listId ==> multiset(r)[l] == multiset(lists)[l])
  {
    if lists != [] {
      assert lists == [lists[0]] + lists[1..];
      RemoveListKeepsOthers(lists[1..], listId);
    }
  }

  // ---------------------------------------------------------------------
  // Expanding and collapsing a list

  /** `toggleListExpansion`: `listId` changes membership, no other id does. */
  function ToggleMember(s: set<string>, x: string): (r: set<string>)
    ensures x in r <==> x !in s
    ensures forall y :: y != x ==> (y in r <==> y in s)
  {
    if x in s then s - {x} else s + {x}
  }

  // ---------------------------------------------------------------------
  // Looking lists up by id and re-indexing them

  /** `items.findIndex(item => item.id === id)` */
  function FindIndex(lists: seq<UserList>, id: string): (r: int)
    ensures -1 <= r < |lists|
    ensures r == -1 <==> forall i :: 0 <= i < |lists| ==> lists[i].id != id
    ensures 0 <= r ==> lists[r].id == id && forall i :: 0 <= i < r ==> lists[i].id != id
  {
    var k := IndexOf(Ids(lists), id);
    assert 0 <= k ==> forall i :: 0 <= i < k ==> Ids(lists)[..k][i] == lists[i].id;
    k
  }

  /** With distinct ids, `FindIndex` finds every list at its own position. */
  lemma FindIndexDistinct(lists: seq<UserList>, k: int)
    requires Distinct(Ids(lists)) && 0 <= k < |lists|
    ensures FindIndex(lists, lists[k].id) == k
  {
    IndexOfDistinct(Ids(lists), k);
  }

  predicate HasId(lists: seq<UserList>, id: string) {
    exists i :: 0 <= i < |lists| && lists[i].id == id
  }

  /** `lists.find(list => list.id === id)!`: the first list with that id. */
  function Find(lists: seq<UserList>, id: string): (r: UserList)
    requires HasId(lists, id)
    ensures r in lists && r.id == id
    ensures r == lists[FindIndex(lists, id)]
  {
    lists[FindIndex(lists, id)]
  }

  /** `handleReorder`'s `newOrder.map(({id}) => lists.find(...)!)`: the
      caller vouches (with `!`) that every id is that of a current list. */
  function Reorder(lists: seq<UserList>, ids: seq<string>): (r: seq<UserList>)
    requires forall id :: id in ids ==> HasId(lists, id)
    ensures Ids(r) == ids
    ensures forall i :: 0 <= i < |ids| ==> r[i] in lists
    // `find` takes the first list carrying the id
    ensures forall i :: 0 <= i < |ids| ==> r[i] == lists[FindIndex(lists, ids[i])]
  {
    seq(|ids|, i requires 0 <= i < |ids| => Find(lists, ids[i]))
  }

  // ---------------------------------------------------------------------
  // How the updates relate to one another

  /** Filtering out an id that is not there changes nothing. */
  lemma {:induction false} RemoveListAbsent(lists: seq<UserList>, listId: string)
    requires listId !in Ids(lists)
    ensures RemoveList(lists, listId) == lists
  {
    if lists != [] {
      assert Ids(lists[1..]) == Ids(lists)[1..];
      RemoveListAbsent(lists[1..], listId);
    }
  }

  lemma {:induction false} RemoveListSnoc(lists: seq<UserList>, l: UserList, listId: string)
    ensures RemoveList(lists + [l], listId) == RemoveList(lists, listId) + (if l.id == listId then [] else [l])
  {
    if lists != [] {
      assert (lists + [l])[1..] == lists[1..] + [l];
      RemoveListSnoc(lists[1..], l, listId);
    }
  }

  /** Deleting a list that was just created, under an id no other list
      had, gives back the lists from before the creation. */
  lemma DeleteUndoesCreateList(lists: seq<UserList>, rec: ListRecord)
    requires rec.id !in Ids(lists)
    ensures RemoveList(AppendList(lists, rec), rec.id) == lists
  {
    RemoveListSnoc(lists, UserList(rec.id, rec.name, []), rec.id);
    RemoveListAbsent(lists, rec.id);
  }

  lemma {:induction false} WithoutTaskAbsent(tasks: seq<Task>, taskId: string)
    requires forall j :: 0 <= j < |tasks| ==> tasks[j].id != taskId
    ensures WithoutTask(tasks, taskId) == tasks
  {
    if tasks != [] {
      WithoutTaskAbsent(tasks[1..], taskId);
    }
  }

  lemma {:induction false} WithoutTaskSnoc(tasks: seq<Task>, t: Task, taskId: string)
    ensures WithoutTask(tasks + [t], taskId) == WithoutTask(tasks, taskId) + (if t.id == taskId then [] else [t])
  {
    if tasks != [] {
      assert (tasks + [t])[1..] == tasks[1..] + [t];
      WithoutTaskSnoc(tasks[1..], t, taskId);
    }
  }

  /** Deleting a task that was just created, under an id the list did not
      use yet, gives back the lists from before the creation. */
  lemma DeleteUndoesCreateTask(lists: seq<UserList>, listId: string, task: Task)
    requires forall i, j :: 0 <= i < |lists| && lists[i].id == listId && 0 <= j < |lists[i].tasks| ==>
               lists[i].tasks[j].id != task.id
    ensures RemoveTask(AddTask(lists, listId, task), listId, task.id) == lists
  {
    var r := RemoveTask(AddTask(lists, listId, task), listId, task.id);
    forall i | 0 <= i < |lists| && lists[i].id == listId
      ensures r[i] == lists[i]
    {
      WithoutTaskSnoc(lists[i].tasks, task, task.id);
      WithoutTaskAbsent(lists[i].tasks, task.id);
    }
  }

  /** Applying the same edit twice is applying it once. */
  lemma UpdateTaskIdempotent(lists: seq<UserList>, listId: string, taskId: string, e: TaskEdit)
    ensures UpdateTask(UpdateTask(lists, listId, taskId, e), listId, taskId, e) == UpdateTask(lists, listId, taskId, e)
  {
    var once := UpdateTask(lists, listId, taskId, e);
    var twice := UpdateTask(once, listId, taskId, e);
    forall i | 0 <= i < |lists|
      ensures twice[i] == once[i]
    {
      if lists[i].id == listId {
        assert twice[i].tasks == once[i].tasks;
      }
    }
  }

  /** Of two edits of the same field, the later one is all that remains. */
  lemma UpdateTaskLastWins(lists: seq<UserList>, listId: string, taskId: string, e1: TaskEdit, e2: TaskEdit)
    requires e1.SetCompleted? == e2.SetCompleted?
    ensures UpdateTask(UpdateTask(lists, listId, taskId, e1), listId, taskId, e2) == UpdateTask(lists, listId, taskId, e2)
  {
    var first := UpdateTask(lists, listId, taskId, e1);
    var both := UpdateTask(first, listId, taskId, e2);
    var only := UpdateTask(lists, listId, taskId, e2);
    forall i | 0 <= i < |lists|
      ensures both[i] == only[i]
    {
      if lists[i].id == listId {
        assert both[i].tasks == only[i].tasks;
      }
    }
  }

  /** Every task with `taskId` in a list with `listId` already holds the
      value `e` writes. */
  predicate TargetsHold(lists: seq<UserList>, listId: string, taskId: string, e: TaskEdit) {
    forall i, j :: 0 <= i < |lists| && 0 <= j < |lists[i].tasks| ==>
      (lists[i].id == listId && lists[i].tasks[j].id == taskId ==> HasEdit(lists[i].tasks[j], e))
  }

  /** An edit that writes the value every targeted task already holds
      changes nothing. */
  lemma UpdateTaskNoOp(lists: seq<UserList>, listId: string, taskId: string, e: TaskEdit)
    requires TargetsHold(lists, listId, taskId, e)
    ensures UpdateTask(lists, listId, taskId, e) == lists
  {
    var r := UpdateTask(lists, listId, taskId, e);
    forall i | 0 <= i < |lists|
      ensures r[i] == lists[i]
    {
      if lists[i].id == listId {
        assert r[i].tasks == lists[i].tasks;
      }
    }
  }

  /** Completing a task and un-completing it again (or the other way round)
      gives back the lists it started from. */
  lemma ToggleTwiceRestores(lists: seq<UserList>, listId: string, taskId: string, was: bool)
    requires TargetsHold(lists, listId, taskId, SetCompleted(was))
    ensures UpdateTask(UpdateTask(lists, listId, taskId, SetCompleted(!was)), listId, taskId, SetCompleted(was)) == lists
  {
    UpdateTaskLastWins(lists, listId, taskId, SetCompleted(!was), SetCompleted(was));
    UpdateTaskNoOp(lists, listId, taskId, SetCompleted(was));
  }

  /** Two flips of the same id restore the expanded set. */
  lemma ToggleMemberTwice(s: set<string>, x: string)
    ensures ToggleMember(ToggleMember(s, x), x) == s
  {
  }

  /** Re-indexing by the ids the lists already carry, in their own order,
      is the identity when no id repeats. */
  lemma ReorderByOwnIds(lists: seq<UserList>)
    requires Distinct(Ids(lists))
    ensures Reorder(lists, Ids(lists)) == lists
  {
    var r := Reorder(lists, Ids(lists));
    forall i | 0 <= i < |lists|
      ensures r[i] == lists[i]
    {
      FindIndexDistinct(lists, i);
    }
  }

  /** Applying the same order twice is applying it once. */
  lemma ReorderIdempotent(lists: seq<UserList>, ids: seq<string>)
    requires forall id :: id in ids ==> HasId(lists, id)
    ensures forall id :: id in ids ==> HasId(Reorder(lists, ids), id)
    ensures Reorder(Reorder(lists, ids), ids) == Reorder(lists, ids)
  {
    var once := Reorder(lists, ids);
    forall id | id in ids
      ensures HasId(once, id)
    {
      var i :| 0 <= i < |ids| && ids[i] == id;
      assert Ids(once)[i] == id;
    }
    var twice := Reorder(once, ids);
    forall i | 0 <= i < |ids|
      ensures twice[i] == once[i]
    {
      var k := FindIndex(once, ids[i]);
      assert Ids(once)[k] == ids[k];
      assert once[k] == Find(lists, ids[k]);
    }
  }
}
