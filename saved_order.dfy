/** The saved display order of `fetchLists`: the fetched lists are sorted
    with the comparator `orderIds.indexOf(a.id) - orderIds.indexOf(b.id)`,
    which is a sort by the key `indexOf(orderIds, id)`. An id missing from
    the saved order has key -1, so its list comes before every saved one.
    `Array.prototype.sort` is stable, so lists with equal keys keep the order
    the server sent them in.

    The sort is modelled by an insertion sort. `IsStableSort` is an
    independent description of a stable sort by key (sorted, and the same
    lists under each key in the same order), and `SortByOrderIsTheStableSort`
    proves that the insertion sort meets it and that nothing else does. */
module SavedOrder {
  import opened Types
  import opened ListOps

  /** The sort key of a list: the first position of its id in the saved
      order, or -1. */
  function Key(order: seq<string>, l: UserList): (k: int)
    ensures -1 <= k < |order|
    ensures k >= 0 ==> order[k] == l.id
  {
    IndexOf(order, l.id)
  }

  predicate SortedBy(order: seq<string>, s: seq<UserList>) {
    forall i, j :: 0 <= i < j < |s| ==> Key(order, s[i]) <= Key(order, s[j])
  }

  /** The lists of `s` whose key is `k`, in the order of `s`. */
  function WithKey(order: seq<string>, s: seq<UserList>, k: int): seq<UserList> {
    if s == [] then []
    else (if Key(order, s[0]) == k then [s[0]] else []) + WithKey(order, s[1..], k)
  }

  /** `r` is `data` sorted stably by key. */
  ghost predicate IsStableSort(order: seq<string>, data: seq<UserList>, r: seq<UserList>) {
    SortedBy(order, r) && forall k :: WithKey(order, r, k) == WithKey(order, data, k)
  }

  /** Puts `x` before the first list whose key is not smaller than its own. */
  function Insert(order: seq<string>, x: UserList, s: seq<UserList>): (r: seq<UserList>)
    ensures |r| == |s| + 1
  {
    if s == [] || Key(order, x) <= Key(order, s[0]) then [x] + s
    else [s[0]] + Insert(order, x, s[1..])
  }

  lemma {:induction false} InsertAddsOne(order: seq<string>, x: UserList, s: seq<UserList>)
    ensures multiset(Insert(order, x, s)) == multiset(s) + multiset{x}
  {
    if s != [] && Key(order, x) > Key(order, s[0]) {
      InsertAddsOne(order, x, s[1..]);
      assert s == [s[0]] + s[1..];
    }
  }

  lemma {:induction false} InsertSorted(order: seq<string>, x: UserList, s: seq<UserList>)
    requires SortedBy(order, s)
    ensures SortedBy(order, Insert(order, x, s))
    ensures Insert(order, x, s)[0] == x || Insert(order, x, s)[0] == s[0]
  {
    if s != [] && Key(order, x) > Key(order, s[0]) {
      var t := Insert(order, x, s[1..]);
      InsertSorted(order, x, s[1..]);
      var r := [s[0]] + t;
      assert Insert(order, x, s) == r;
      assert Key(order, s[0]) <= Key(order, t[0]) by {
        if t[0] != x {
          assert t[0] == s[1];
        }
      }
      forall i, j | 0 <= i < j < |r|
        ensures Key(order, r[i]) <= Key(order, r[j])
      {
        assert r[j] == t[j - 1];
        if i == 0 {
          assert Key(order, t[0]) <= Key(order, t[j - 1]);
        } else {
          assert r[i] == t[i - 1];
        }
      }
    }
  }

  /** `[...data].sort((a, b) => orderIds.indexOf(a.id) - orderIds.indexOf(b.id))` */
  function SortByOrder(order: seq<string>, data: seq<UserList>): (r: seq<UserList>)
    ensures |r| == |data|
  {
    if data == [] then []
    else Insert(order, data[0], SortByOrder(order, data[1..]))
  }

  /** The sort puts the fetched lists, all of them, in key order. */
  lemma {:induction false} SortByOrderSorts(order: seq<string>, data: seq<UserList>)
    ensures multiset(SortByOrder(order, data)) == multiset(data)
    ensures SortedBy(order, SortByOrder(order, data))
  {
    if data != [] {
      var rest := SortByOrder(order, data[1..]);
      SortByOrderSorts(order, data[1..]);
      InsertSorted(order, data[0], rest);
      InsertAddsOne(order, data[0], rest);
      assert data == [data[0]] + data[1..];
    }
  }

  /** What `fetchLists` hands to `setLists`: the server's order when nothing
      is saved, the sorted lists otherwise. Either way a permutation. */
  function ApplySavedOrder(saved: Option<seq<string>>, data: seq<UserList>): (r: seq<UserList>)
    ensures multiset(r) == multiset(data)
    ensures saved.None? ==> r == data
    ensures saved.Some? ==> SortedBy(saved.value, r)
  {
    match saved
    case None => data
    case Some(order) =>
      SortByOrderSorts(order, data);
      SortByOrder(order, data)
  }

  // ---------------------------------------------------------------------
  // Stability and uniqueness

  lemma WithKeyCons(order: seq<string>, x: UserList, s: seq<UserList>, k: int)
    ensures WithKey(order, [x] + s, k) == (if Key(order, x) == k then [x] else []) + WithKey(order, s, k)
  {
    assert ([x] + s)[1..] == s;
  }

  lemma {:induction false} WithKeyMember(order: seq<string>, s: seq<UserList>, k: int, y: UserList)
    ensures y in WithKey(order, s, k) <==> y in s && Key(order, y) == k
  {
    if s != [] {
      WithKeyMember(order, s[1..], k, y);
      assert s == [s[0]] + s[1..];
    }
  }

  lemma {:induction false} InsertWithKey(order: seq<string>, x: UserList, s: seq<UserList>, k: int)
    ensures WithKey(order, Insert(order, x, s), k) == (if Key(order, x) == k then [x] else []) + WithKey(order, s, k)
  {
    if s == [] || Key(order, x) <= Key(order, s[0]) {
      WithKeyCons(order, x, s, k);
    } else {
      var t := Insert(order, x, s[1..]);
      assert Insert(order, x, s) == [s[0]] + t;
      WithKeyCons(order, s[0], t, k);
      InsertWithKey(order, x, s[1..], k);
    }
  }

  /** Lists with equal keys come out in the order they went in. */
  lemma {:induction false} SortByOrderIsStable(order: seq<string>, data: seq<UserList>, k: int)
    ensures WithKey(order, SortByOrder(order, data), k) == WithKey(order, data, k)
  {
    if data != [] {
      SortByOrderIsStable(order, data[1..], k);
      InsertWithKey(order, data[0], SortByOrder(order, data[1..]), k);
      assert data == [data[0]] + data[1..];
      WithKeyCons(order, data[0], data[1..], k);
    }
  }

  /** Sorted by key with the same lists under every key: the first lists
      agree. */
  lemma HeadsAgree(order: seq<string>, a: seq<UserList>, b: seq<UserList>)
    requires a != [] && b != []
    requires SortedBy(order, a) && SortedBy(order, b)
    requires WithKey(order, a, Key(order, a[0])) == WithKey(order, b, Key(order, a[0]))
    requires WithKey(order, a, Key(order, b[0])) == WithKey(order, b, Key(order, b[0]))
    ensures a[0] == b[0]
  {
    var ka, kb := Key(order, a[0]), Key(order, b[0]);
    // the first list of each is in the other, so neither key is smaller
    WithKeyMember(order, a, ka, a[0]);
    WithKeyMember(order, b, ka, a[0]);
    WithKeyMember(order, b, kb, b[0]);
    WithKeyMember(order, a, kb, b[0]);
    var i :| 0 <= i < |b| && b[i] == a[0];
    var j :| 0 <= j < |a| && a[j] == b[0];
    assert kb <= Key(order, b[i]) && ka <= Key(order, a[j]);
    assert WithKey(order, a, ka)[0] == a[0];
    assert WithKey(order, b, kb)[0] == b[0];
  }

  /** Equal first lists and the same lists under every key: the rests have
      the same lists under every key too. */
  lemma TailsAgree(order: seq<string>, a: seq<UserList>, b: seq<UserList>, k: int)
    requires a != [] && b != [] && a[0] == b[0]
    requires WithKey(order, a, k) == WithKey(order, b, k)
    ensures WithKey(order, a[1..], k) == WithKey(order, b[1..], k)
  {
    assert a == [a[0]] + a[1..] && b == [b[0]] + b[1..];
    WithKeyCons(order, a[0], a[1..], k);
    WithKeyCons(order, b[0], b[1..], k);
    var head := if Key(order, a[0]) == k then [a[0]] else [];
    assert WithKey(order, a[1..], k) == WithKey(order, a, k)[|head|..];
    assert WithKey(order, b[1..], k) == WithKey(order, b, k)[|head|..];
  }

  /** Two sequences sorted by key with the same lists under every key are
      equal: a stable sort has only one possible result. */
  lemma {:induction false} StableSortUnique(order: seq<string>, a: seq<UserList>, b: seq<UserList>)
    requires SortedBy(order, a) && SortedBy(order, b)
    requires forall k :: WithKey(order, a, k) == WithKey(order, b, k)
    ensures a == b
    decreases |a|
  {
    if a == [] || b == [] {
      if a != [] {
        WithKeyMember(order, a, Key(order, a[0]), a[0]);
      } else if b != [] {
        WithKeyMember(order, b, Key(order, b[0]), b[0]);
      }
    } else {
      HeadsAgree(order, a, b);
      forall k
        ensures WithKey(order, a[1..], k) == WithKey(order, b[1..], k)
      {
        TailsAgree(order, a, b, k);
      }
      StableSortUnique(order, a[1..], b[1..]);
      assert a == [a[0]] + a[1..] && b == [b[0]] + b[1..];
    }
  }

  /** The sort of `fetchLists` is the stable sort by saved position, and
      it is the only sequence that is. */
  lemma SortByOrderIsTheStableSort(order: seq<string>, data: seq<UserList>, r: seq<UserList>)
    ensures IsStableSort(order, data, SortByOrder(order, data))
    ensures IsStableSort(order, data, r) ==> r == SortByOrder(order, data)
  {
    var sorted := SortByOrder(order, data);
    SortByOrderSorts(order, data);
    forall k
      ensures WithKey(order, sorted, k) == WithKey(order, data, k)
    {
      SortByOrderIsStable(order, data, k);
    }
    if IsStableSort(order, data, r) {
      StableSortUnique(order, r, sorted);
    }
  }

  // ---------------------------------------------------------------------
  // What the ordering rule means for the lists on screen

  /** A list whose id is not saved comes before every list whose id is,
      and between saved lists the earlier saved position comes first. */
  lemma SortedPositions(order: seq<string>, data: seq<UserList>, i: int, j: int)
    requires 0 <= i < |data| && 0 <= j < |data|
    ensures var r := SortByOrder(order, data);
      (r[i].id !in order && r[j].id in order ==> i < j) &&
      (r[i].id in order && r[j].id in order && IndexOf(order, r[i].id) < IndexOf(order, r[j].id) ==> i < j)
  {
    var r := SortByOrder(order, data);
    SortByOrderSorts(order, data);
    if j <= i {
      assert j == i || Key(order, r[j]) <= Key(order, r[i]);
    }
  }

  /** When no fetched id is saved (an empty saved order among them), the
      server's order is kept. */
  lemma NothingSavedKeepsServerOrder(order: seq<string>, data: seq<UserList>)
    requires forall l :: l in data ==> l.id !in order
    ensures SortByOrder(order, data) == data
  {
    assert SortedBy(order, data);
    SortByOrderIsTheStableSort(order, data, data);
  }

  // ---------------------------------------------------------------------
  // Saved ids of lists that no longer exist

  /** Two saved orders compare the lists of `pool` alike. */
  predicate Agree(o1: seq<string>, o2: seq<string>, pool: seq<UserList>) {
    forall x, y :: x in pool && y in pool ==> (Key(o1, x) <= Key(o1, y) <==> Key(o2, x) <= Key(o2, y))
  }

  lemma {:induction false} InsertAgree(o1: seq<string>, o2: seq<string>, pool: seq<UserList>, x: UserList, s: seq<UserList>)
    requires Agree(o1, o2, pool) && x in pool && forall y :: y in s ==> y in pool
    ensures Insert(o1, x, s) == Insert(o2, x, s)
  {
    if s != [] {
      assert s[0] in s;
      InsertAgree(o1, o2, pool, x, s[1..]);
    }
  }

  /** The sort looks at keys only through comparisons. */
  lemma {:induction false} SortAgree(o1: seq<string>, o2: seq<string>, pool: seq<UserList>, data: seq<UserList>)
    requires Agree(o1, o2, pool) && forall y :: y in data ==> y in pool
    ensures SortByOrder(o1, data) == SortByOrder(o2, data)
  {
    if data != [] {
      SortAgree(o1, o2, pool, data[1..]);
      var t := SortByOrder(o1, data[1..]);
      SortByOrderSorts(o1, data[1..]);
      forall y | y in t ensures y in pool {
        assert y in multiset(t);
      }
      InsertAgree(o1, o2, pool, data[0], t);
    }
  }

  /** Dropping position `p` from the saved order shifts the positions after
      it down by one and leaves the others, and -1, alone. */
  lemma {:induction false} IndexOfDropped(order: seq<string>, p: int, x: string)
    requires 0 <= p < |order| && order[p] != x
    ensures var k := IndexOf(order, x);
      IndexOf(order[..p] + order[p + 1..], x) == if k < p then k else k - 1
  {
    var rest := order[..p] + order[p + 1..];
    var k := IndexOf(order, x);
    var k1 := IndexOf(order[1..], x);
    assert order[0] != x ==> k == (if k1 == -1 then -1 else k1 + 1);
    if p == 0 {
      assert rest == order[1..];
    } else if order[0] == x {
      assert rest[0] == x;
    } else {
      assert rest[0] == order[0];
      assert rest[1..] == order[1..][..p - 1] + order[1..][p..];
      IndexOfDropped(order[1..], p - 1, x);
      assert IndexOf(rest, x) == (var r1 := IndexOf(rest[1..], x); if r1 == -1 then -1 else r1 + 1);
    }
  }

  /** A saved id that is not the id of any fetched list has no effect on
      the result: removing it from the saved order changes nothing. */
  lemma UnknownSavedIdIgnored(order: seq<string>, data: seq<UserList>, p: int)
    requires 0 <= p < |order| && order[p] !in Ids(data)
    ensures SortByOrder(order, data) == SortByOrder(order[..p] + order[p + 1..], data)
  {
    var dropped := order[..p] + order[p + 1..];
    forall x, y | x in data && y in data
      ensures Key(order, x) <= Key(order, y) <==> Key(dropped, x) <= Key(dropped, y)
    {
      var i :| 0 <= i < |data| && data[i] == x;
      var j :| 0 <= j < |data| && data[j] == y;
      assert Ids(data)[i] == x.id && Ids(data)[j] == y.id;
      IndexOfDropped(order, p, x.id);
      IndexOfDropped(order, p, y.id);
    }
    SortAgree(order, dropped, data, data);
  }

  // ---------------------------------------------------------------------
  // Reloading after a reorder

  /** Keys of `s` that are pairwise different leave at most one list under
      each key. */
  lemma {:induction false} WithKeyDistinctKeys(order: seq<string>, s: seq<UserList>, k: int)
    requires forall i, j :: 0 <= i < j < |s| ==> Key(order, s[i]) != Key(order, s[j])
    ensures forall i :: 0 <= i < |s| && Key(order, s[i]) == k ==> WithKey(order, s, k) == [s[i]]
    ensures (forall i :: 0 <= i < |s| ==> Key(order, s[i]) != k) ==> WithKey(order, s, k) == []
  {
    if s != [] {
      WithKeyDistinctKeys(order, s[1..], k);
      if Key(order, s[0]) == k {
        assert forall i :: 0 <= i < |s[1..]| ==> Key(order, s[1..][i]) != k;
      } else {
        forall i | 0 <= i < |s| && Key(order, s[i]) == k
          ensures WithKey(order, s, k) == [s[i]]
        {
          assert s[i] == s[1..][i - 1];
        }
      }
    }
  }

  /** Saving the order of `handleReorder` and fetching the same lists again
      shows them in the order the user chose, whatever order the server
      returns them in: `fetchLists` then computes what `handleReorder`
      computed. */
  lemma ReloadShowsReorder(data: seq<UserList>, order: seq<string>)
    requires Distinct(Ids(data)) && Distinct(order)
    requires forall id :: id in order ==> HasId(data, id)
    requires forall l :: l in data ==> l.id in order
    ensures SortByOrder(order, data) == Reorder(data, order)
  {
    var r := Reorder(data, order);
    forall i | 0 <= i < |r|
      ensures Key(order, r[i]) == i
    {
      assert Ids(r)[i] == order[i];
      IndexOfDistinct(order, i);
    }
    assert SortedBy(order, r);
    forall i, j | 0 <= i < j < |data|
      ensures Key(order, data[i]) != Key(order, data[j])
    {
      assert data[i].id in order && data[j].id in order;
      assert Ids(data)[i] != Ids(data)[j];
    }
    forall k
      ensures WithKey(order, r, k) == WithKey(order, data, k)
    {
      WithKeyDistinctKeys(order, r, k);
      WithKeyDistinctKeys(order, data, k);
      if 0 <= k < |order| {
        var m := FindIndex(data, order[k]);
        assert Key(order, data[m]) == k by {
          IndexOfDistinct(order, k);
        }
        assert r[k] == data[m];
      } else {
        forall i | 0 <= i < |data| ensures Key(order, data[i]) != k {
          assert data[i].id in order;
        }
      }
    }
    SortByOrderIsTheStableSort(order, data, r);
  }

  /** Without repeated ids, the list found under an id is the one there is. */
  lemma FindDistinct(lists: seq<UserList>, l: UserList)
    requires Distinct(Ids(lists)) && l in lists
    ensures HasId(lists, l.id) && Find(lists, l.id) == l
  {
    var i :| 0 <= i < |lists| && lists[i] == l;
    var k := FindIndex(lists, l.id);
    assert Ids(lists)[k] == Ids(lists)[i];
  }

  /** Two permutations of one another, without repeated ids, hold the same
      list under every id. */
  lemma FindInPermutation(data: seq<UserList>, data': seq<UserList>, id: string)
    requires Distinct(Ids(data')) && multiset(data') == multiset(data) && HasId(data, id)
    ensures HasId(data', id) && Find(data', id) == Find(data, id)
  {
    var l := Find(data, id);
    assert l in multiset(data');
    FindDistinct(data', l);
  }

  /** The order shown after a reload does not depend on the order in which
      the server returns the lists. */
  lemma ReloadIgnoresServerOrder(data: seq<UserList>, data': seq<UserList>, order: seq<string>)
    requires Distinct(Ids(data)) && Distinct(Ids(data')) && Distinct(order)
    requires multiset(data') == multiset(data)
    requires forall id :: id in order ==> HasId(data, id)
    requires forall l :: l in data ==> l.id in order
    ensures SortByOrder(order, data') == SortByOrder(order, data)
  {
    forall id | id in order ensures HasId(data', id) && Find(data', id) == Find(data, id) {
      FindInPermutation(data, data', id);
    }
    forall l | l in data' ensures l.id in order {
      assert l in multiset(data);
    }
    ReloadShowsReorder(data, order);
    ReloadShowsReorder(data', order);
  }
}
