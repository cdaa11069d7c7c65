/** The dashboard page (app/dashboard/page.tsx): the lists on screen, which
    of them are expanded, the two creation dialogs and the list order kept
    in local storage under `todo-list-order`. Every handler that talks to
    the server sends one request and changes the lists only when the reply
    is ok; the reply is a parameter of the handler, and the request it sent
    is its result. */
module DashboardPage {
  import opened Types
  import opened ListOps
  import opened SavedOrder
  import opened ArrayMove

  /** The requests the page sends. */
  datatype Request =
    | ListsGet                                      // GET /api/userlist
    | ListPost(name: string)                        // POST /api/userlist
    | TaskPost(taskName: string, userListId: string) // POST /api/task
    | TaskPut(taskId: string, edit: TaskEdit)       // PUT /api/task/<id>
    | TaskDelete(taskId: string)                    // DELETE /api/task/<id>
    | ListDelete(listId: string)                    // DELETE /api/userlist/<id>

  /** `handleDragEnd`'s new lists: `arrayMove` of the dragged list onto the
      position of the list it was dropped over. */
  function DragEndLists(lists: seq<UserList>, activeId: string, overId: string): (r: seq<UserList>)
    ensures |r| == |lists|
  {
    if activeId != overId && lists != [] then
      Move(lists, FindIndex(lists, activeId), FindIndex(lists, overId))
    else lists
  }

  /** A drag rearranges the lists without adding or dropping one; dropping
      a list on itself changes nothing. When both ids are on screen, the
      dragged list takes the place of the one it was dropped on, and the
      others keep their relative order. */
  lemma DragEndMoves(lists: seq<UserList>, activeId: string, overId: string)
    ensures var r := DragEndLists(lists, activeId, overId);
      multiset(r) == multiset(lists) && (activeId == overId ==> r == lists)
    ensures activeId != overId && HasId(lists, activeId) && HasId(lists, overId) ==>
      var r := DragEndLists(lists, activeId, overId);
      var i, j := FindIndex(lists, activeId), FindIndex(lists, overId);
      r[j] == lists[i] && Without(r, j) == Without(lists, i)
  {
    if activeId != overId && lists != [] {
      MovePermutes(lists, FindIndex(lists, activeId), FindIndex(lists, overId));
      MovePlaces(lists, FindIndex(lists, activeId), FindIndex(lists, overId));
    }
  }

  /** Two positions of a moved sequence of lists with distinct ids hold
      lists with different ids. */
  lemma MovedIdsDiffer(lists: seq<UserList>, from: int, to: int, a: int, b: int)
    requires Distinct(Ids(lists)) && -(|lists| as int) <= from < |lists|
    requires 0 <= a < b < |lists|
    ensures Move(lists, from, to)[a].id != Move(lists, from, to)[b].id
  {
    var f, t := MoveSource(from, |lists|), MoveTarget(to, |lists|);
    var r := Move(lists, from, to);
    MovePlaces(lists, from, to);
    var oa := if a == t then f else Origin(f, t, a);
    var ob := if b == t then f else Origin(f, t, b);
    if a != t {
      MoveOrigin(lists, from, to, a);
    }
    if b != t {
      MoveOrigin(lists, from, to, b);
    }
    assert r[a] == lists[oa] && r[b] == lists[ob] && oa != ob;
    assert Ids(lists)[oa] != Ids(lists)[ob];
  }

  /** A drag keeps the ids of the lists distinct. */
  lemma DragEndKeepsIdsDistinct(lists: seq<UserList>, activeId: string, overId: string)
    requires Distinct(Ids(lists))
    ensures Distinct(Ids(DragEndLists(lists, activeId, overId)))
  {
    var r := DragEndLists(lists, activeId, overId);
    if activeId != overId && lists != [] {
      forall a, b | 0 <= a < b < |r| ensures Ids(r)[a] != Ids(r)[b] {
        MovedIdsDiffer(lists, FindIndex(lists, activeId), FindIndex(lists, overId), a, b);
      }
    }
  }

  /** After a drag between two lists on screen, with distinct ids, the
      dragged list is found where it was dropped, and the list now at its
      old position is found there. */
  lemma DragEndFindsAgain(lists: seq<UserList>, activeId: string, overId: string)
    requires Distinct(Ids(lists)) && activeId != overId
    requires HasId(lists, activeId) && HasId(lists, overId)
    ensures var i, j := FindIndex(lists, activeId), FindIndex(lists, overId);
      var r := DragEndLists(lists, activeId, overId);
      0 <= i < |r| && 0 <= j < |r| && r == Move(lists, i, j) &&
      FindIndex(r, activeId) == j && r[i].id != activeId && FindIndex(r, r[i].id) == i
  {
    var i, j := FindIndex(lists, activeId), FindIndex(lists, overId);
    var r := Move(lists, i, j);
    MovePlaces(lists, i, j);
    DragEndKeepsIdsDistinct(lists, activeId, overId);
    FindIndexDistinct(r, j);
    FindIndexDistinct(r, i);
    assert Ids(r)[i] != Ids(r)[j];
  }

  /** Dropping the dragged list back over the list that now stands where it
      came from restores the screen. */
  lemma DragEndUndo(lists: seq<UserList>, activeId: string, overId: string)
    requires Distinct(Ids(lists)) && activeId != overId
    requires HasId(lists, activeId) && HasId(lists, overId)
    ensures var r := DragEndLists(lists, activeId, overId);
      var i := FindIndex(lists, activeId);
      DragEndLists(r, activeId, r[i].id) == lists
  {
    var i, j := FindIndex(lists, activeId), FindIndex(lists, overId);
    DragEndFindsAgain(lists, activeId, overId);
    MoveBack(lists, i, j);
  }

  /** A reload after the lists were put in an order, and that order was
      saved, shows them in that order whatever order the server sends. */
  lemma ReloadKeepsScreenOrder(lists: seq<UserList>, server: seq<UserList>)
    requires Distinct(Ids(lists)) && Distinct(Ids(server))
    requires multiset(server) == multiset(lists)
    ensures ApplySavedOrder(Some(Ids(lists)), server) == lists
  {
    var order := Ids(lists);
    forall id | id in order ensures HasId(lists, id) {
      var k :| 0 <= k < |order| && order[k] == id;
      assert lists[k].id == id;
    }
    forall l | l in lists ensures l.id in order {
      var k :| 0 <= k < |lists| && lists[k] == l;
      assert order[k] == l.id;
    }
    ReloadIgnoresServerOrder(lists, server, order);
    ReloadShowsReorder(lists, order);
    ReorderByOwnIds(lists);
  }

  class Dashboard {
    var lists: seq<UserList>
    var expandedLists: set<string>
    /** The list the "Create New Task" dialog adds to; the dialog is open
        while this is not `None`. */
    var createTaskModalList: Option<string>
    var isCreateListModalOpen: bool
    /** Local storage's `todo-list-order`, as parsed by `JSON.parse`. */
    var savedOrder: Option<seq<string>>

    /** The page as first rendered, with whatever order an earlier visit
        saved. */
    constructor(stored: Option<seq<string>>)
      ensures lists == [] && expandedLists == {} && createTaskModalList == None
      ensures !isCreateListModalOpen && savedOrder == stored
    {
      lists := [];
      expandedLists := {};
      createTaskModalList := None;
      isCreateListModalOpen := false;
      savedOrder := stored;
    }

    /** `fetchLists`: the lists the server sends, stably sorted by the
        position of their id in the saved order when there is one. */
    method FetchLists(response: Response<seq<UserList>>) returns (req: Request)
      modifies this`lists
      ensures req == ListsGet
      ensures response.NotOk? ==> lists == old(lists)
      ensures response.Ok? ==> lists == ApplySavedOrder(savedOrder, response.body)
      ensures response.Ok? ==> multiset(lists) == multiset(response.body)
      ensures response.Ok? && savedOrder.None? ==> lists == response.body
      ensures response.Ok? && savedOrder.Some? ==> IsStableSort(savedOrder.value, response.body, lists)
    {
      req := ListsGet;
      if response.Ok? {
        lists := ApplySavedOrder(savedOrder, response.body);
        if savedOrder.Some? {
          SortByOrderIsTheStableSort(savedOrder.value, response.body, lists);
        }
      }
    }

    /** `handleCreateList`: the new list goes at the end with no tasks, the
        saved order becomes the ids on screen, and the dialog closes. */
    method CreateList(name: string, response: Response<ListRecord>) returns (req: Request)
      modifies this`lists, this`savedOrder, this`isCreateListModalOpen
      ensures req == ListPost(name)
      ensures response.NotOk? ==> unchanged(this)
      ensures response.Ok? ==>
        lists == AppendList(old(lists), response.body) &&
        savedOrder == Some(Ids(lists)) && !isCreateListModalOpen
    {
      req := ListPost(name);
      if response.Ok? {
        lists := AppendList(lists, response.body);
        savedOrder := Some(Ids(lists));
        isCreateListModalOpen := false;
      }
    }

    /** `handleCreateTask`: nothing happens unless the task dialog names a
        list (an empty id counts as none); the new task goes at the end of
        that list and the dialog closes. */
    method CreateTask(taskName: string, response: Response<Task>) returns (req: Option<Request>)
      modifies this`lists, this`createTaskModalList
      ensures old(createTaskModalList) in {None, Some([])} ==> req.None? && unchanged(this)
      ensures old(createTaskModalList) !in {None, Some([])} ==>
        req == Some(TaskPost(taskName, old(createTaskModalList).value))
      ensures old(createTaskModalList) !in {None, Some([])} && response.NotOk? ==> unchanged(this)
      ensures old(createTaskModalList) !in {None, Some([])} && response.Ok? ==>
        lists == AddTask(old(lists), old(createTaskModalList).value, response.body) &&
        createTaskModalList == None
    {
      if createTaskModalList == None || createTaskModalList == Some([]) {
        return None;
      }
      var listId := createTaskModalList.value;
      req := Some(TaskPost(taskName, listId));
      if response.Ok? {
        lists := AddTask(lists, listId, response.body);
        createTaskModalList := None;
      }
    }

    /** `toggleTaskCompletion` */
    method ToggleTaskCompletion(listId: string, taskId: string, isCompleted: bool, ok: bool) returns (req: Request)
      modifies this`lists
      ensures req == TaskPut(taskId, SetCompleted(isCompleted))
      ensures !ok ==> lists == old(lists)
      ensures ok ==> lists == UpdateTask(old(lists), listId, taskId, SetCompleted(isCompleted))
    {
      req := TaskPut(taskId, SetCompleted(isCompleted));
      if ok {
        lists := UpdateTask(lists, listId, taskId, SetCompleted(isCompleted));
      }
    }

    /** `toggleListExpansion` */
    method ToggleListExpansion(listId: string)
      modifies this`expandedLists
      ensures expandedLists == ToggleMember(old(expandedLists), listId)
    {
      expandedLists := ToggleMember(expandedLists, listId);
    }

    /** `handleDeleteTask` */
    method DeleteTask(listId: string, taskId: string, ok: bool) returns (req: Request)
      modifies this`lists
      ensures req == TaskDelete(taskId)
      ensures !ok ==> lists == old(lists)
      ensures ok ==> lists == RemoveTask(old(lists), listId, taskId)
    {
      req := TaskDelete(taskId);
      if ok {
        lists := RemoveTask(lists, listId, taskId);
      }
    }

    /** `handleDeleteList`: the saved order is left as it is. */
    method DeleteList(listId: string, ok: bool) returns (req: Request)
      modifies this`lists
      ensures req == ListDelete(listId)
      ensures !ok ==> lists == old(lists)
      ensures ok ==> lists == RemoveList(old(lists), listId)
    {
      req := ListDelete(listId);
      if ok {
        lists := RemoveList(lists, listId);
      }
    }

    /** `handleDragEnd`; `over` is the list the dragged one was dropped on. */
    method DragEnd(activeId: string, overId: string)
      modifies this`lists
      ensures lists == DragEndLists(old(lists), activeId, overId)
    {
      lists := DragEndLists(lists, activeId, overId);
    }

    /** `handleRenameTask` */
    method RenameTask(listId: string, taskId: string, newName: string, ok: bool) returns (req: Request)
      modifies this`lists
      ensures req == TaskPut(taskId, SetName(newName))
      ensures !ok ==> lists == old(lists)
      ensures ok ==> lists == UpdateTask(old(lists), listId, taskId, SetName(newName))
    {
      req := TaskPut(taskId, SetName(newName));
      if ok {
        lists := UpdateTask(lists, listId, taskId, SetName(newName));
      }
    }

    /** `handleReorder`: the caller vouches that every id is on screen. */
    method ReorderLists(newOrder: seq<string>)
      requires forall id :: id in newOrder ==> HasId(lists, id)
      modifies this`lists, this`savedOrder
      ensures lists == Reorder(old(lists), newOrder) && savedOrder == Some(newOrder)
    {
      lists := Reorder(lists, newOrder);
      savedOrder := Some(newOrder);
    }

    /** The "Create List" button. */
    method OpenCreateListModal()
      modifies this`isCreateListModalOpen
      ensures isCreateListModalOpen
    {
      isCreateListModalOpen := true;
    }

    /** Closing the list dialog. */
    method CloseCreateListModal()
      modifies this`isCreateListModalOpen
      ensures !isCreateListModalOpen
    {
      isCreateListModalOpen := false;
    }

    /** A list's "add task" button (`onAddTask`). */
    method OpenCreateTaskModal(listId: string)
      modifies this`createTaskModalList
      ensures createTaskModalList == Some(listId)
    {
      createTaskModalList := Some(listId);
    }

    /** Closing the task dialog. */
    method CloseCreateTaskModal()
      modifies this`createTaskModalList
      ensures createTaskModalList == None
    {
      createTaskModalList := None;
    }
  }

  /** Creating a list and reloading the page: the lists come back in the
      order they had on screen, whatever order the server sends them in. */
  lemma ReloadAfterCreate(lists: seq<UserList>, rec: ListRecord, server: seq<UserList>)
    requires Distinct(Ids(lists)) && rec.id !in Ids(lists)
    requires Distinct(Ids(server)) && multiset(server) == multiset(AppendList(lists, rec))
    ensures var created := AppendList(lists, rec);
      ApplySavedOrder(Some(Ids(created)), server) == created
  {
    var created := AppendList(lists, rec);
    forall a, b | 0 <= a < b < |created| ensures Ids(created)[a] != Ids(created)[b] {
      if b == |lists| {
        assert Ids(lists)[a] == Ids(created)[a];
      } else {
        assert Ids(lists)[a] != Ids(lists)[b];
      }
    }
    ReloadKeepsScreenOrder(created, server);
  }

  /** Reordering the lists and reloading the page: the lists come back in
      the new order, whatever order the server sends them in. */
  lemma ReloadAfterReorder(lists: seq<UserList>, newOrder: seq<string>, server: seq<UserList>)
    requires Distinct(Ids(lists)) && Distinct(newOrder)
    requires forall id :: id in newOrder ==> HasId(lists, id)
    requires forall l :: l in lists ==> l.id in newOrder
    requires Distinct(Ids(server)) && multiset(server) == multiset(lists)
    ensures ApplySavedOrder(Some(newOrder), server) == Reorder(lists, newOrder)
  {
    ReloadIgnoresServerOrder(lists, server, newOrder);
    ReloadShowsReorder(lists, newOrder);
  }

  /** The two handlers in a row on one page: create, then reload. */
  method CreateListThenReload(d: Dashboard, name: string, rec: ListRecord, server: seq<UserList>)
    requires Distinct(Ids(d.lists)) && rec.id !in Ids(d.lists)
    requires Distinct(Ids(server)) && multiset(server) == multiset(AppendList(d.lists, rec))
    modifies d
    ensures d.lists == AppendList(old(d.lists), rec)
  {
    ReloadAfterCreate(d.lists, rec, server);
    var _ := d.CreateList(name, Ok(rec));
    var _ := d.FetchLists(Ok(server));
  }

  /** The two handlers in a row on one page: reorder, then reload. */
  method ReorderThenReload(d: Dashboard, newOrder: seq<string>, server: seq<UserList>)
    requires Distinct(Ids(d.lists)) && Distinct(newOrder)
    requires forall id :: id in newOrder ==> HasId(d.lists, id)
    requires forall l :: l in d.lists ==> l.id in newOrder
    requires Distinct(Ids(server)) && multiset(server) == multiset(d.lists)
    modifies d
    ensures d.lists == Reorder(old(d.lists), newOrder)
  {
    ReloadAfterReorder(d.lists, newOrder, server);
    d.ReorderLists(newOrder);
    var _ := d.FetchLists(Ok(server));
  }
}
