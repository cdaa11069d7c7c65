/** `arrayMove(array, from, to)` of @dnd-kit/sortable, which `handleDragEnd`
    applies to the lists. It copies the array, takes the element out with
    `splice(from, 1)` and puts it back with `splice(to', 0, element)`, where
    `to'` is `length + to` for a negative `to`, computed on the copy BEFORE
    the element is taken out. `splice` counts a negative start from the end
    and clamps it to the array. `handleDragEnd` passes the results of two
    `findIndex` calls, so either index may be -1. */
module ArrayMove {

  /** Where `Array.prototype.splice` starts for `start` on an array of
      length `len`. */
  function SpliceStart(start: int, len: nat): (r: nat)
    ensures r <= len
    ensures 0 <= start <= len ==> r == start
    ensures -(len as int) <= start < 0 ==> r == len + start
  {
    if start < 0 then (if len + start < 0 then 0 else len + start)
    else if start > len then len
    else start
  }

  /** The position the moved element is taken from. */
  function MoveSource(from: int, n: nat): (r: nat)
    requires -(n as int) <= from < n
    ensures r < n
    ensures 0 <= from ==> r == from
    ensures from == -1 ==> r == n - 1
  {
    SpliceStart(from, n)
  }

  /** The position the moved element ends up at. */
  function MoveTarget(to: int, n: nat): (r: nat)
    requires 0 < n
    ensures r < n
    ensures 0 <= to < n ==> r == to
    ensures to == -1 ==> r == n - 1
  {
    SpliceStart(if to < 0 then n + to else to, n - 1)
  }

  /** `s` without its element at `i`. */
  function Without<T>(s: seq<T>, i: nat): (r: seq<T>)
    requires i < |s|
    ensures |r| == |s| - 1
  {
    s[..i] + s[i + 1..]
  }

  /** `s` with `x` put in at position `i`. */
  function PutAt<T>(s: seq<T>, i: nat, x: T): (r: seq<T>)
    requires i <= |s|
    ensures |r| == |s| + 1
  {
    s[..i] + [x] + s[i..]
  }

  /** Taking out what was put in gives back the sequence. */
  lemma WithoutPutAt<T>(s: seq<T>, i: nat, x: T)
    requires i <= |s|
    ensures PutAt(s, i, x)[i] == x && Without(PutAt(s, i, x), i) == s
  {
    var r := PutAt(s, i, x);
    assert r[..i] == s[..i] && r[i + 1..] == s[i..];
  }

  /** Putting back what was taken out gives back the sequence. */
  lemma PutAtWithout<T>(s: seq<T>, i: nat)
    requires i < |s|
    ensures PutAt(Without(s, i), i, s[i]) == s
  {
    var w := Without(s, i);
    assert w[..i] == s[..i] && w[i..] == s[i + 1..];
  }

  /** `arrayMove(s, from, to)` for a `from` that names an element. */
  function Move<T>(s: seq<T>, from: int, to: int): (r: seq<T>)
    requires -(|s| as int) <= from < |s|
    ensures |r| == |s|
  {
    var f := MoveSource(from, |s|);
    PutAt(Without(s, f), MoveTarget(to, |s|), s[f])
  }

  /** The moved element lands at `MoveTarget(to, |s|)`, and the others keep
      their relative order. */
  lemma MovePlaces<T>(s: seq<T>, from: int, to: int)
    requires -(|s| as int) <= from < |s|
    ensures var r, f, t := Move(s, from, to), MoveSource(from, |s|), MoveTarget(to, |s|);
      r[t] == s[f] && Without(r, t) == Without(s, f)
  {
    WithoutPutAt(Without(s, MoveSource(from, |s|)), MoveTarget(to, |s|), s[MoveSource(from, |s|)]);
  }

  /** A move neither adds nor drops an element. */
  lemma MovePermutes<T>(s: seq<T>, from: int, to: int)
    requires -(|s| as int) <= from < |s|
    ensures multiset(Move(s, from, to)) == multiset(s)
  {
    var f, t := MoveSource(from, |s|), MoveTarget(to, |s|);
    var w := Without(s, f);
    assert s == s[..f] + [s[f]] + s[f + 1..];
    assert w == w[..t] + w[t..];
    calc {
      multiset(Move(s, from, to));
      multiset(w[..t]) + multiset{s[f]} + multiset(w[t..]);
      multiset(w) + multiset{s[f]};
      multiset(s[..f] + [s[f]] + s[f + 1..]);
      multiset(s);
    }
  }

  /** Moving an element back where it came from restores the sequence. */
  lemma MoveBack<T>(s: seq<T>, from: int, to: int)
    requires 0 <= from < |s| && 0 <= to < |s|
    ensures Move(Move(s, from, to), to, from) == s
  {
    MovePlaces(s, from, to);
    PutAtWithout(s, from);
  }

  /** Moving an element onto its own position changes nothing. */
  lemma MoveInPlace<T>(s: seq<T>, i: int)
    requires 0 <= i < |s|
    ensures Move(s, i, i) == s
  {
    PutAtWithout(s, i);
  }

  /** Where the element at position `k` of the moved sequence comes from,
      for source `f` and target `t`: positions before the target read the
      shortened sequence at `k`, later ones at `k - 1`, and the shortened
      sequence skips `f`. */
  function Origin(f: nat, t: nat, k: nat): nat
    requires k != t
  {
    var w := if k < t then k else k - 1;
    if w < f then w else w + 1
  }

  /** Every position but the target holds an element of `s` taken from a
      position other than the source. */
  lemma MoveOrigin<T>(s: seq<T>, from: int, to: int, k: int)
    requires -(|s| as int) <= from < |s|
    requires 0 <= k < |s| && k != MoveTarget(to, |s|)
    ensures var f := MoveSource(from, |s|);
      var o := Origin(f, MoveTarget(to, |s|), k);
      o < |s| && o != f && Move(s, from, to)[k] == s[o]
  {
    var f, t := MoveSource(from, |s|), MoveTarget(to, |s|);
    var r := Move(s, from, to);
    var w := Without(s, f);
    var o := Origin(f, t, k);
    if k < t {
      assert r[k] == w[k];
    } else {
      assert r[k] == w[k - 1];
    }
    if o < f {
      assert w[o] == s[o];
    } else {
      assert w[o - 1] == s[o];
    }
  }
}
