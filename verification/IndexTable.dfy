// The service bus index table: parallel arrays kept in id order.
module IndexTable {
  newtype Pointer = p: int | 0 <= p
  const NULL: Pointer := 0

  // ----- the finite map behind the arrays -----

  ghost predicate Ordered(ids: seq<int>) {
    && (forall i, j :: 0 <= i < j < |ids| ==> ids[i] < ids[j])
    && (forall i :: 0 <= i < |ids| ==> 0 < ids[i])
  }

  ghost function ToMap(ids: seq<int>, ptrs: seq<Pointer>): map<int, Pointer>
    requires |ids| == |ptrs| && Ordered(ids)
  {
    map i | 0 <= i < |ids| :: ids[i] := ptrs[i]
  }

  ghost function Inserted<T>(s: seq<T>, i: nat, x: T): seq<T>
    requires i <= |s|
  {
    seq(|s| + 1, j requires 0 <= j <= |s| => if j < i then s[j] else if j == i then x else s[j - 1])
  }

  ghost function Removed<T>(s: seq<T>, i: nat): seq<T>
    requires i < |s|
  {
    seq(|s| - 1, j requires 0 <= j < |s| - 1 => if j < i then s[j] else s[j + 1])
  }

  /** The place of id among ids that do not contain it. */
  ghost predicate InsertionPoint(ids: seq<int>, id: int, i: nat) {
    && i <= |ids|
    && (forall j :: 0 <= j < i ==> ids[j] < id)
    && (forall j :: i <= j < |ids| ==> id < ids[j])
  }

  lemma LookupAt(ids: seq<int>, ptrs: seq<Pointer>, j: nat)
    requires |ids| == |ptrs| && Ordered(ids) && j < |ids|
    ensures ids[j] in ToMap(ids, ptrs) && ToMap(ids, ptrs)[ids[j]] == ptrs[j]
  {
  }

  lemma Members(ids: seq<int>, ptrs: seq<Pointer>, k: int)
    requires |ids| == |ptrs| && Ordered(ids)
    ensures k in ToMap(ids, ptrs) <==> k in ids
  {
  }

  lemma InsertedOrdered(ids: seq<int>, i: nat, id: int)
    requires Ordered(ids) && 0 < id && InsertionPoint(ids, id, i)
    ensures Ordered(Inserted(ids, i, id))
  {
  }

  lemma InsertIsUpdate(ids: seq<int>, ptrs: seq<Pointer>, i: nat, id: int, p: Pointer)
    requires |ids| == |ptrs| && Ordered(ids)
    requires 0 < id && InsertionPoint(ids, id, i)
    ensures Ordered(Inserted(ids, i, id))
    ensures ToMap(Inserted(ids, i, id), Inserted(ptrs, i, p)) == ToMap(ids, ptrs)[id := p]
  {
    InsertedOrdered(ids, i, id);
    hide ToMap, Ordered, InsertionPoint;
    var ids', ptrs' := Inserted(ids, i, id), Inserted(ptrs, i, p);
    var m', m := ToMap(ids', ptrs'), ToMap(ids, ptrs);
    forall k | k in m[id := p]
      ensures k in m' && m'[k] == m[id := p][k]
    {
      InsertedLookup(ids, ptrs, i, id, p, k);
    }
    forall k | k in m'
      ensures k in m[id := p]
    {
      Members(ids', ptrs', k);
      Members(ids, ptrs, k);
      InsertedMembers(ids, i, id, k);
    }
  }

  lemma InsertedMembers(ids: seq<int>, i: nat, id: int, k: int)
    requires i <= |ids| && k in Inserted(ids, i, id)
    ensures k == id || k in ids
  {
    var j :| 0 <= j < |ids| + 1 && Inserted(ids, i, id)[j] == k;
    assert j != i ==> k == ids[if j < i then j else j - 1];
  }

  lemma InsertedLookup(ids: seq<int>, ptrs: seq<Pointer>, i: nat, id: int, p: Pointer, k: int)
    requires |ids| == |ptrs| && Ordered(ids) && InsertionPoint(ids, id, i)
    requires Ordered(Inserted(ids, i, id))
    requires k == id || k in ids
    ensures k in ToMap(Inserted(ids, i, id), Inserted(ptrs, i, p))
    ensures ToMap(Inserted(ids, i, id), Inserted(ptrs, i, p))[k] == if k == id then p else ToMap(ids, ptrs)[k]
  {
    hide Ordered, ToMap;
    var j := if k == id then i else var j :| 0 <= j < |ids| && ids[j] == k; j;
    if k != id {
      LookupAt(ids, ptrs, j);
    }
    LookupAt(Inserted(ids, i, id), Inserted(ptrs, i, p), if j < i || k == id then j else j + 1);
  }

  lemma RemovedOrdered(ids: seq<int>, i: nat)
    requires Ordered(ids) && i < |ids|
    ensures |Removed(ids, i)| == |ids| - 1 && ids[i] !in Removed(ids, i)
    ensures Ordered(Removed(ids, i))
    ensures InsertionPoint(Removed(ids, i), ids[i], i)
  {
  }

  lemma InsertUndoesRemove<T>(s: seq<T>, i: nat)
    requires i < |s|
    ensures |Removed(s, i)| == |s| - 1
    ensures Inserted(Removed(s, i), i, s[i]) == s
  {
  }

  lemma DeleteUndoesUpdate<K, V>(m: map<K, V>, m': map<K, V>, k: K, v: V)
    requires k !in m' && m == m'[k := v]
    ensures m' == m - {k}
  {
  }

  lemma RemoveIsDelete(ids: seq<int>, ptrs: seq<Pointer>, i: nat)
    requires |ids| == |ptrs| && Ordered(ids) && i < |ids|
    ensures Ordered(Removed(ids, i))
    ensures ToMap(Removed(ids, i), Removed(ptrs, i)) == ToMap(ids, ptrs) - {ids[i]}
  {
    hide ToMap, Inserted, Removed;
    var ids', ptrs' := Removed(ids, i), Removed(ptrs, i);
    RemovedOrdered(ids, i);
    InsertUndoesRemove(ids, i);
    InsertUndoesRemove(ptrs, i);
    Members(ids', ptrs', ids[i]);
    InsertIsUpdate(ids', ptrs', i, ids[i], ptrs[i]);
    DeleteUndoesUpdate(ToMap(ids, ptrs), ToMap(ids', ptrs'), ids[i], ptrs[i]);
  }

  lemma {:induction false} CountIsSize(ids: seq<int>, ptrs: seq<Pointer>)
    requires |ids| == |ptrs| && Ordered(ids)
    ensures |ToMap(ids, ptrs)| == |ids|
  {
    if ids == [] {
      assert ToMap(ids, ptrs) == map[];
    } else {
      var n := |ids| - 1;
      var m, m' := ToMap(ids, ptrs), ToMap(ids[..n], ptrs[..n]);
      CountIsSize(ids[..n], ptrs[..n]);
      assert Inserted(ids[..n], n, ids[n]) == ids && Inserted(ptrs[..n], n, ptrs[n]) == ptrs;
      InsertIsUpdate(ids[..n], ptrs[..n], n, ids[n], ptrs[n]);
      assert m == m'[ids[n] := ptrs[n]] && ids[n] !in m';
    }
  }

  // ----- the two searches -----

  method BinarySearch(id: int, ids: array<int>, count: nat) returns (r: int)
    requires count <= ids.Length && Ordered(ids[..count])
    ensures -1 <= r < count
    ensures r >= 0 ==> ids[r] == id
    ensures r == -1 <==> id !in ids[..count]
  {
    ghost var s := ids[..count];
    if 0 >= count {
      return -1;
    }
    if ids[0] > id {
      return -1;
    }
    var min, max := 0, count - 1;
    if ids[max] < id {
      return -1;
    }
    while max >= min
      invariant 0 <= min <= count && -1 <= max < count
      invariant forall j :: 0 <= j < min ==> s[j] < id
      invariant forall j :: max < j < count ==> s[j] > id
    {
      var mid := min + (max - min) / 2;
      if ids[mid] == id {
        assert s[mid] == id;
        return mid;
      } else if ids[mid] < id {
        assert s[mid] < id;
        min := mid + 1;
      } else {
        assert s[mid] > id;
        max := mid - 1;
      }
    }
    return -1;
  }

  method BinaryInsert(id: int, ids: array<int>, count: nat) returns (r: int)
    requires count <= ids.Length && Ordered(ids[..count])
    ensures r == -1 <==> id in ids[..count]
    ensures r != -1 ==> r >= 0 && InsertionPoint(ids[..count], id, r)
  {
    ghost var s := ids[..count];
    var min, max := 0, count - 1;
    if count == 0 {
      max := 0;
    } else if ids[min] == id || ids[max] == id {
      assert s[min] == id || s[max] == id;
      max := -1;
    } else if ids[min] > id {
      assert s[min] > id;
      max := 0;
    } else if ids[max] < id {
      assert s[max] < id;
      max := count;
    } else {
      var again := true;
      while again
        invariant 0 <= min < max < count
        invariant s[min] < id < s[max]
        invariant !again ==> max - min <= 1
        decreases max - min, again
      {
        var mid := min + (max - min) / 2;
        if ids[mid] < id {
          min := mid;
        } else if ids[mid] > id {
          max := mid;
        } else {
          assert s[mid] == id;
          return -1;
        }
        again := max - min > 1;
      }
    }
    return max;
  }

  lemma ShiftedUp<T>(before: seq<T>, after: seq<T>, at: nat, n: nat, x: T)
    requires at <= n < |before| == |after| && after[at] == x
    requires forall j :: 0 <= j < at ==> after[j] == before[j]
    requires forall j :: at < j <= n ==> after[j] == before[j - 1]
    ensures after[..n + 1] == Inserted(before[..n], at, x)
  {
  }

  lemma ShiftedDown<T>(before: seq<T>, after: seq<T>, at: nat, n: nat)
    requires at < n <= |before| == |after|
    requires forall j :: 0 <= j < at ==> after[j] == before[j]
    requires forall j :: at <= j < n - 1 ==> after[j] == before[j + 1]
    ensures after[..n - 1] == Removed(before[..n], at)
  {
  }

  /** Moves entries from position at one place up, from the top down, and fills the gap. */
  method ShiftIn(ids: array<int>, ptrs: array<Pointer>, at: nat, n: nat, id: int, p: Pointer)
    requires at <= n < ids.Length == ptrs.Length
    modifies ids, ptrs
    ensures ids[..n + 1] == Inserted(old(ids[..n]), at, id)
    ensures ptrs[..n + 1] == Inserted(old(ptrs[..n]), at, p)
  {
    hide Inserted;
    ghost var s, t := ids[..], ptrs[..];
    var top := n;
    while at < top
      invariant at <= top <= n
      invariant forall j :: 0 <= j < top ==> ids[j] == s[j]
      invariant forall j :: 0 <= j < top ==> ptrs[j] == t[j]
      invariant forall j :: top < j <= n ==> ids[j] == s[j - 1]
      invariant forall j :: top < j <= n ==> ptrs[j] == t[j - 1]
    {
      ids[top] := ids[top - 1];
      ptrs[top] := ptrs[top - 1];
      top := top - 1;
    }
    ids[at] := id;
    ptrs[at] := p;
    ShiftedUp(s, ids[..], at, n, id);
    ShiftedUp(t, ptrs[..], at, n, p);
    assert ids[..][..n + 1] == ids[..n + 1] && s[..n] == old(ids[..n]);
    assert ptrs[..][..n + 1] == ptrs[..n + 1] && t[..n] == old(ptrs[..n]);
  }

  /** Moves entries after position at one place down; returns the new number of entries. */
  method ShiftOut(ids: array<int>, ptrs: array<Pointer>, at: nat, n: nat) returns (i: nat)
    requires at < n <= ids.Length == ptrs.Length
    modifies ids, ptrs
    ensures i == n - 1
    ensures ids[..n - 1] == Removed(old(ids[..n]), at)
    ensures ptrs[..n - 1] == Removed(old(ptrs[..n]), at)
  {
    hide Removed;
    ghost var s, t := ids[..], ptrs[..];
    i := at;
    var last := n - 1;
    while last > i
      invariant at <= i <= last
      invariant forall j :: 0 <= j < at ==> ids[j] == s[j]
      invariant forall j :: 0 <= j < at ==> ptrs[j] == t[j]
      invariant forall j :: at <= j < i ==> ids[j] == s[j + 1]
      invariant forall j :: at <= j < i ==> ptrs[j] == t[j + 1]
      invariant forall j :: i <= j < n ==> ids[j] == s[j]
      invariant forall j :: i <= j < n ==> ptrs[j] == t[j]
    {
      ids[i] := ids[i + 1];
      ptrs[i] := ptrs[i + 1];
      i := i + 1;
    }
    ShiftedDown(s, ids[..], at, n);
    ShiftedDown(t, ptrs[..], at, n);
    assert ids[..][..n - 1] == ids[..n - 1] && s[..n] == old(ids[..n]);
    assert ptrs[..][..n - 1] == ptrs[..n - 1] && t[..n] == old(ptrs[..n]);
  }

  // ----- the table -----

  class Table {
    const size: nat
    var count: nat
    const ids: array<int>
    const ptrs: array<Pointer>

    ghost predicate Valid()
      reads this, ids
    {
      && ids.Length == ptrs.Length == size
      && count <= size
      && Ordered(ids[..count])
    }

    ghost function Contents(): map<int, Pointer>
      requires Valid()
      reads this, ids, ptrs
    {
      ToMap(ids[..count], ptrs[..count])
    }

    constructor (tableSize: nat)
      ensures Valid() && Contents() == map[] && size == tableSize
      ensures fresh(ids) && fresh(ptrs)
    {
      size := tableSize;
      count := 0;
      ids := new int[tableSize];
      ptrs := new Pointer[tableSize];
    }

    /** The least positive id not in use, or -1 when the table is full. */
    method GetEmptyId() returns (id: int)
      requires Valid()
      ensures id == -1 <==> |Contents()| == size
      ensures id != -1 ==> 0 < id <= |Contents()| + 1 && id !in Contents()
      ensures id != -1 ==> forall k :: 0 < k < id ==> k in Contents()
    {
      hide ToMap;
      CountIsSize(ids[..count], ptrs[..count]);
      if size == count {
        return -1;
      }
      id := 1;
      ghost var s := ids[..count];
      var i := 0;
      while i < count && ids[i] == id
        invariant 0 <= i <= count && id == i + 1
        invariant forall k :: 0 <= k < i ==> s[k] == k + 1
      {
        id := id + 1;
        i := i + 1;
      }
      if i < count {
        assert s[i] != id && (i > 0 ==> s[i - 1] == i);
      }
      Members(s, ptrs[..count], id);
      forall k | 0 < k < id
        ensures k in Contents()
      {
        assert s[k - 1] == k;
        Members(s, ptrs[..count], k);
      }
    }

    method FindId(id: int) returns (p: Pointer)
      requires Valid()
      ensures p == if id in Contents() then Contents()[id] else NULL
    {
      p := NULL;
      var i := BinarySearch(id, ids, count);
      if 0 <= i {
        p := ptrs[i];
        assert ids[..count][i] == id && ptrs[..count][i] == p;
      }
    }

    method AddId(id: int, p: Pointer) returns (r: int)
      requires Valid()
      modifies this`count, ids, ptrs
      ensures Valid()
      ensures r == -2 <==> 0 < id && |old(Contents())| == size
      ensures r == -1 <==> id <= 0 || (|old(Contents())| < size && id in old(Contents()))
      ensures r >= -2
      ensures r < 0 ==> Contents() == old(Contents())
      ensures r >= 0 ==> Contents() == old(Contents())[id := p] && old(InsertionPoint(ids[..count], id, r))
    {
      hide Ordered, ToMap, Inserted;
      ghost var s, t := ids[..count], ptrs[..count];
      CountIsSize(s, t);
      Members(s, t, id);
      if 0 >= id {
        return -1;
      }
      if size <= count {
        return -2;
      }
      r := BinaryInsert(id, ids, count);
      if 0 <= r {
        InsertIsUpdate(s, t, r, id, p);
        ShiftIn(ids, ptrs, r, count, id, p);
        count := count + 1;
      }
    }

    /** Deletes id and returns the new number of entries, or -1 when id is not present. */
    method DelId(id: int) returns (r: int)
      requires Valid()
      modifies this`count, ids, ptrs
      ensures Valid()
      ensures Contents() == old(Contents()) - {id}
      ensures r == if id in old(Contents()) then |Contents()| else -1
    {
      hide Ordered, ToMap, Removed;
      ghost var s, t := ids[..count], ptrs[..count];
      Members(s, t, id);
      r := BinarySearch(id, ids, count);
      if 0 <= r {
        RemoveIsDelete(s, t, r);
        r := ShiftOut(ids, ptrs, r, count);
        count := count - 1;
        CountIsSize(ids[..count], ptrs[..count]);
      }
    }
  }

  // ----- every sequence of calls refines a bounded finite map -----

  datatype Call = Add(id: int, p: Pointer) | Del(id: int)

  /** The bounded map the table stands for: only fresh positive ids enter, while there is room. */
  ghost function Apply(m: map<int, Pointer>, size: nat, c: Call): map<int, Pointer> {
    match c
    case Add(id, p) => if id <= 0 || size <= |m| || id in m then m else m[id := p]
    case Del(id) => m - {id}
  }

  ghost function ApplyAll(m: map<int, Pointer>, size: nat, calls: seq<Call>): map<int, Pointer> {
    if calls == [] then m
    else Apply(ApplyAll(m, size, calls[..|calls| - 1]), size, calls[|calls| - 1])
  }

  method Perform(t: Table, calls: seq<Call>)
    requires t.Valid()
    modifies t`count, t.ids, t.ptrs
    ensures t.Valid()
    ensures t.Contents() == ApplyAll(old(t.Contents()), t.size, calls)
  {
    ghost var m := t.Contents();
    for i := 0 to |calls|
      invariant t.Valid()
      invariant t.Contents() == ApplyAll(m, t.size, calls[..i])
    {
      assert calls[..i + 1][..i] == calls[..i];
      CountIsSize(t.ids[..t.count], t.ptrs[..t.count]);
      match calls[i]
      case Add(id, p) =>
        var r := t.AddId(id, p);
      case Del(id) =>
        var r := t.DelId(id);
    }
    assert calls[..|calls|] == calls;
  }

  ghost predicate Bounded(m: map<int, Pointer>, size: nat) {
    |m| <= size && forall k :: k in m ==> 0 < k
  }

  /** No call sequence overfills the table or lets in an id that is not positive. */
  lemma {:induction false} CallsKeepBounds(m: map<int, Pointer>, size: nat, calls: seq<Call>)
    requires Bounded(m, size)
    ensures Bounded(ApplyAll(m, size, calls), size)
  {
    if calls != [] {
      var m' := ApplyAll(m, size, calls[..|calls| - 1]);
      CallsKeepBounds(m, size, calls[..|calls| - 1]);
      match calls[|calls| - 1]
      case Add(id, p) =>
      case Del(id) =>
        assert (m' - {id}).Keys <= m'.Keys;
        SubsetSize((m' - {id}).Keys, m'.Keys);
    }
  }

  lemma {:induction false} SubsetSize(a: set<int>, b: set<int>)
    requires a <= b
    ensures |a| <= |b|
  {
    assert b == a + (b - a);
  }

  /** An entry stays bound to the pointer it was added with until its own id is deleted. */
  lemma {:induction false} EntrySurvives(m: map<int, Pointer>, size: nat, calls: seq<Call>, id: int)
    requires id in m
    requires forall i :: 0 <= i < |calls| ==> calls[i] != Del(id)
    ensures id in ApplyAll(m, size, calls) && ApplyAll(m, size, calls)[id] == m[id]
  {
    if calls != [] {
      EntrySurvives(m, size, calls[..|calls| - 1], id);
    }
  }
}
