/** The records the dashboard keeps in its state, and the small helpers on
    them that every handler shares. */
module Types {

  datatype Option<T> = None | Some(value: T)

  /** The part of a `fetch` answer the dashboard looks at: whether
      `response.ok` held and, when it did, the JSON body it read. */
  datatype Response<T> = Ok(body: T) | NotOk

  /** A task as the API returns it: `{ id, taskName, isCompleted }`. */
  datatype Task = Task(id: string, taskName: string, isCompleted: bool)

  /** A list with its tasks, in the order the server stored them. */
  datatype UserList = UserList(id: string, name: string, tasks: seq<Task>)

  /** The record `POST /api/userlist` answers with; it has no tasks yet. */
  datatype ListRecord = ListRecord(id: string, name: string)

  /** `lists.map(list => list.id)` */
  function Ids(lists: seq<UserList>): (r: seq<string>)
    ensures |r| == |lists|
    ensures forall i :: 0 <= i < |lists| ==> r[i] == lists[i].id
  {
    seq(|lists|, i requires 0 <= i < |lists| => lists[i].id)
  }

  /** No identifier occurs twice. */
  predicate Distinct<T(==)>(s: seq<T>) {
    forall i, j :: 0 <= i < j < |s| ==> s[i] != s[j]
  }

  /** `Array.prototype.indexOf` (and `findIndex` on an id): the first
      position holding `x`, or -1 when there is none. */
  function IndexOf<T(==)>(s: seq<T>, x: T): (r: int)
    ensures -1 <= r < |s|
    ensures r == -1 <==> x !in s
    ensures 0 <= r ==> s[r] == x && x !in s[..r]
  {
    if s == [] then -1
    else if s[0] == x then 0
    else
      var k := IndexOf(s[1..], x);
      if k == -1 then -1
      else
        assert s[..k + 1] == [s[0]] + s[1..][..k];
        k + 1
  }

  /** In a sequence without repetitions, every element is found at its own
      position. */
  lemma IndexOfDistinct<T>(s: seq<T>, i: int)
    requires Distinct(s) && 0 <= i < |s|
    ensures IndexOf(s, s[i]) == i
  {
  }
}
