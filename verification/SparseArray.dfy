/** Sparse arrays as circular linked lists, with one remembered position shared by all arrays
    (ipc/bash-4.2/array.c).

    Elements are nodes of a list table, arrays are numbered in the order of their creation, and ring
    `a` of the table is array `a`, its dummy head first. `xmalloc` is the caller's choice of a node
    that is in no array. */
module SparseArray {
  import opened Common
  import opened Links
  import opened SparseEntries

  /** The rings hold the entries of `contents`: the node at position `k + 1` of a ring is entry `k` of
      the array. */
  ghost predicate Stored(contents: seq<seq<Entry>>, rings: seq<seq<nat>>, ind: seq<int>, value: seq<Value>) {
    && |contents| == |rings| && |ind| == |value|
    && (forall a :: 0 <= a < |rings| ==> |rings[a]| == |contents[a]| + 1)
    && (forall a, k {:trigger rings[a][k]} :: 0 <= a < |rings| && 0 <= k < |rings[a]| ==>
          NodeHolds(contents[a], k, rings[a][k], ind, value))
  }

  predicate NodeHolds(e: seq<Entry>, k: nat, x: nat, ind: seq<int>, value: seq<Value>)
    requires k <= |e| && |ind| == |value|
  {
    x < |ind| && if k == 0 then ind[x] == -1 else (ind[x], value[x]) == e[k - 1]
  }

  /** `max_index` and `num_elements` of every array. */
  ghost predicate AllCounted(contents: seq<seq<Entry>>, maxIndex: seq<int>, numElements: seq<int>) {
    && |contents| == |maxIndex| == |numElements|
    && forall a :: 0 <= a < |contents| ==> CountOk(contents[a], maxIndex[a], numElements[a])
  }

  predicate CountOk(e: seq<Entry>, maxIndex: int, numElements: int) {
    numElements == |e| && maxIndex == MaxIndex(e)
  }

  lemma StoreOutside(contents: seq<seq<Entry>>, rings: seq<seq<nat>>, ind: seq<int>, value: seq<Value>, x: nat,
      i: int, v: Value)
    requires Stored(contents, rings, ind, value) && x < |ind| && !Member(rings, x)
    ensures Stored(contents, rings, ind[x := i], value[x := v])
  {
    assert forall a, k {:trigger rings[a][k]} :: 0 <= a < |rings| && 0 <= k < |rings[a]| ==> rings[a][k] != x;
  }

  lemma StoreInsert(contents: seq<seq<Entry>>, rings: seq<seq<nat>>, ind: seq<int>, value: seq<Value>, a: nat,
      k: nat, x: nat)
    requires Stored(contents, rings, ind, value) && a < |rings| && 0 < k <= |rings[a]| && x < |ind|
    ensures Stored(contents[a := PutAt(contents[a], k - 1, (ind[x], value[x]))],
                   rings[a := InsertAt(rings[a], k, x)], ind, value)
  {
    var contents' := contents[a := PutAt(contents[a], k - 1, (ind[x], value[x]))];
    var rings' := rings[a := InsertAt(rings[a], k, x)];
    forall b, m {:trigger rings'[b][m]} | 0 <= b < |rings'| && 0 <= m < |rings'[b]|
      ensures NodeHolds(contents'[b], m, rings'[b][m], ind, value)
    {
      if !(b == a && m == k) {
        var o := if b == a && m > k then m - 1 else m;
        assert rings'[b][m] == rings[b][o];
      }
    }
  }

  lemma StoreCut(contents: seq<seq<Entry>>, rings: seq<seq<nat>>, ind: seq<int>, value: seq<Value>, a: nat,
      i: nat, j: nat)
    requires Stored(contents, rings, ind, value) && a < |rings| && 0 < i <= j <= |rings[a]|
    ensures Stored(contents[a := contents[a][..i - 1] + contents[a][j - 1..]],
                   rings[a := Cut(rings[a], i, j)], ind, value)
  {
    var contents' := contents[a := contents[a][..i - 1] + contents[a][j - 1..]];
    var rings' := rings[a := Cut(rings[a], i, j)];
    forall b, m {:trigger rings'[b][m]} | 0 <= b < |rings'| && 0 <= m < |rings'[b]|
      ensures NodeHolds(contents'[b], m, rings'[b][m], ind, value)
    {
      var o := if b == a && m >= i then m + (j - i) else m;
      assert rings'[b][m] == rings[b][o];
    }
  }

  lemma CutHead(ring: seq<nat>, i: nat, j: nat)
    requires 0 < i <= j <= |ring|
    ensures Cut(ring, i, j) != [] && Cut(ring, i, j)[0] == ring[0]
  {
  }

  lemma StoreNew(contents: seq<seq<Entry>>, rings: seq<seq<nat>>, ind: seq<int>, value: seq<Value>, x: nat)
    requires Stored(contents, rings, ind, value) && x < |ind| && ind[x] == -1
    ensures Stored(contents + [[]], rings + [[x]], ind, value)
  {
    var contents' := contents + [[]];
    var rings' := rings + [[x]];
    forall b, m {:trigger rings'[b][m]} | 0 <= b < |rings'| && 0 <= m < |rings'[b]|
      ensures NodeHolds(contents'[b], m, rings'[b][m], ind, value)
    {
      if b < |rings| { assert rings'[b][m] == rings[b][m]; }
    }
  }

  /** Changing one listed element changes one entry. */
  lemma StoreUpdate(contents: seq<seq<Entry>>, rings: seq<seq<nat>>, ind: seq<int>, value: seq<Value>, a: nat,
      k: nat, i: int, v: Value)
    requires Stored(contents, rings, ind, value) && Disjoint(rings) && a < |rings| && 0 < k < |rings[a]|
    ensures Stored(contents[a := contents[a][k - 1 := (i, v)]], rings, ind[rings[a][k] := i], value[rings[a][k] := v])
  {
    var x := rings[a][k];
    assert forall b, m {:trigger rings[b][m]} ::
        0 <= b < |rings| && 0 <= m < |rings[b]| && rings[b][m] == x ==> b == a && m == k;
  }

  class ArrayStore {
    const table: ListTable
    const ind: array<int>
    const value: array<Value>
    var heads: seq<nat>
    var maxIndex: seq<int>
    var numElements: seq<int>
    /** The array and the element that were referenced last. */
    var lastarray: Option<nat>
    var lastref: nat

    /** The entries of each array. */
    ghost var contents: seq<seq<Entry>>

    ghost predicate Shape() {
      && ind.Length == value.Length == table.next.Length
      && ind != table.next && ind != table.prev && table.next != table.prev
    }

    /** The lists hold the contents. */
    ghost predicate Threaded()
      reads this, table, table.next, table.prev, ind, value
    {
      && Shape() && table.Valid()
      && Stored(contents, table.rings, ind[..], value[..])
      && |heads| == |maxIndex| == |numElements| == |contents|
      && forall a :: 0 <= a < |contents| ==> heads[a] == table.rings[a][0]
    }

    ghost predicate Listed()
      reads this, table, table.next, table.prev, ind, value
    {
      Threaded() && forall a :: 0 <= a < |contents| ==> Ascending(contents[a])
    }

    /** The remembered element is an element of the remembered array. */
    ghost predicate CacheGood()
      reads this, table
    {
      lastarray.Some? ==>
        lastarray.value < |table.rings| && lastref in table.rings[lastarray.value]
        && lastref != table.rings[lastarray.value][0]
    }

    ghost predicate Valid()
      reads this, table, table.next, table.prev, ind, value
    {
      Listed() && CacheGood() && AllCounted(contents, maxIndex, numElements)
    }

    constructor (size: nat)
      ensures Valid() && contents == []
      ensures fresh(table) && fresh(table.next) && fresh(table.prev) && fresh(ind) && fresh(value)
    {
      table := new ListTable(size);
      ind := new int[size];
      value := new Value[size](_ => None);
      heads, maxIndex, numElements := [], [], [];
      lastarray, lastref := None, 0;
      contents := [];
    }

    /** `INVALIDATE_LASTREF`. */
    method InvalidateLastref(a: nat)
      modifies `lastarray
      ensures lastarray == if old(lastarray) == Some(a) then None else old(lastarray)
    {
      if lastarray == Some(a) {
        lastarray := None;
      }
    }

    /** `array_create_element`: a node in no array gets an index and a value. */
    method CreateElement(x: nat, i: int, v: Value)
      requires Threaded() && x < table.next.Length && !Member(table.rings, x)
      modifies ind, value
      ensures Threaded() && ind[x] == i && value[x] == v
    {
      hide Linked;
      StoreOutside(contents, table.rings, ind[..], value[..], x, i, v);
      ind[x], value[x] := i, v;
      assert ind[..] == old(ind[..])[x := i] && value[..] == old(value[..])[x := v];
    }

    /** `array_create`. */
    method Create(x: nat) returns (a: nat)
      requires Valid() && x < table.next.Length && !Member(table.rings, x)
      modifies this, table, table.next, table.prev, ind, value
      ensures Valid() && a == |old(contents)| && contents == old(contents) + [[]]
      ensures table.rings == old(table.rings) + [[x]]
    {
      hide Linked;
      CreateElement(x, -1, None);
      StoreNew(contents, table.rings, ind[..], value[..], x);
      table.InitListHead(x);
      a := |heads|;
      heads, maxIndex, numElements := heads + [x], maxIndex + [-1], numElements + [0];
      contents := contents + [[]];
      assert forall b | 0 <= b < |contents| :: heads[b] == table.rings[b][0];
      assert forall b | 0 <= b < a :: CountOk(contents[b], maxIndex[b], numElements[b]);
    }

    /** `element_forw` of the node at position `k`. */
    method Forward(ae: nat, ghost a: nat, ghost k: nat) returns (r: nat)
      requires Threaded() && a < |contents| && k < |table.rings[a]| && ae == table.rings[a][k]
      ensures r == Succ(table.rings[a], k)
    {
      assert table.next[..][table.rings[a][k]] == Succ(table.rings[a], k);
      r := table.next[ae];
    }

    /** `element_back`. */
    method Backward(ae: nat, ghost a: nat, ghost k: nat) returns (r: nat)
      requires Threaded() && a < |contents| && k < |table.rings[a]| && ae == table.rings[a][k]
      ensures r == Pred(table.rings[a], k)
    {
      assert table.prev[..][table.rings[a][k]] == Pred(table.rings[a], k);
      r := table.prev[ae];
    }

    /** The node at position `k` is the head only when the loop has come round. */
    lemma HeadOnly(a: nat, k: nat)
      requires Threaded() && a < |contents| && 0 < k < |table.rings[a]|
      ensures table.rings[a][k] != heads[a] && table.rings[a][k] < table.next.Length
      ensures (ind[table.rings[a][k]], value[table.rings[a][k]]) == contents[a][k - 1]
    {
      assert table.rings[a][0] == heads[a] && table.rings[a][0] != table.rings[a][k];
      assert NodeHolds(contents[a], k, table.rings[a][k], ind[..], value[..]);
    }

    /** A loop that is back at the head has seen every position. */
    lemma AtHead(a: nat, k: nat)
      requires Threaded() && a < |contents| && 0 < k <= |table.rings[a]|
      ensures k < |table.rings[a]| ==> table.rings[a][k] != heads[a]
    {
      if k < |table.rings[a]| { HeadOnly(a, k); }
    }

    /** `ADD_BEFORE`; position 0 is the head, so the end. */
    method AddBefore(a: nat, at: nat, x: nat, ghost k: nat)
      requires Threaded() && a < |contents| && k < |table.rings[a]| && at == table.rings[a][k]
      requires x < table.next.Length && !Member(table.rings, x)
      modifies `contents, table, table.next, table.prev
      ensures Threaded()
      ensures var p := if k == 0 then |old(contents)[a]| else k - 1;
              && contents == old(contents)[a := PutAt(old(contents)[a], p, (ind[x], value[x]))]
              && table.rings == old(table.rings)[a := InsertAt(old(table.rings)[a], p + 1, x)]
    {
      hide Linked;
      ghost var p := if k == 0 then |contents[a]| else k - 1;
      StoreInsert(contents, table.rings, ind[..], value[..], a, p + 1, x);
      table.ListAddTail(x, at, a, k);
      contents := contents[a := PutAt(contents[a], p, (ind[x], value[x]))];
      assert forall b | 0 <= b < |contents| :: heads[b] == table.rings[b][0];
    }

    /** `ADD_BEFORE` and the count that goes with it. */
    method LinkBefore(a: nat, at: nat, x: nat, ghost k: nat)
      requires Threaded() && a < |contents| && k < |table.rings[a]| && at == table.rings[a][k]
      requires x < table.next.Length && !Member(table.rings, x)
      modifies `contents, `numElements, table, table.next, table.prev
      ensures Threaded() && numElements == old(numElements)[a := old(numElements)[a] + 1]
      ensures var p := if k == 0 then |old(contents)[a]| else k - 1;
              && contents == old(contents)[a := PutAt(old(contents)[a], p, (ind[x], value[x]))]
              && table.rings == old(table.rings)[a := InsertAt(old(table.rings)[a], p + 1, x)]
    {
      hide Linked, Stored;
      AddBefore(a, at, x, k);
      numElements := numElements[a := numElements[a] + 1];
    }

    /** The loop of `array_insert`: the first element with an index of at least `i`, or the head. */
    method FindSpot(a: nat, i: int) returns (ae: nat, ghost k: nat)
      requires Listed() && a < |contents|
      ensures 1 <= k <= |table.rings[a]| == |contents[a]| + 1
      ensures ae == (if k < |table.rings[a]| then table.rings[a][k] else heads[a])
      ensures k > 1 ==> contents[a][k - 2].0 < i
      ensures if k < |table.rings[a]| then ae != heads[a] && ind[ae] == contents[a][k - 1].0 >= i else ae == heads[a]
      ensures ae < ind.Length
    {
      ghost var ring := table.rings[a];
      assert |ring| == |contents[a]| + 1 && heads[a] == ring[0];
      hide Linked, Stored;
      ae := Forward(heads[a], a, 0);
      k := 1;
      while ae != heads[a]
        invariant 1 <= k <= |ring|
        invariant ae == if k < |ring| then ring[k] else heads[a]
        invariant k > 1 ==> contents[a][k - 2].0 < i
        decreases |ring| - k
      {
        HeadOnly(a, k);
        if ind[ae] >= i {
          return;
        }
        ae := Forward(ae, a, k);
        k := k + 1;
      }
      HeadHolds(a);
      AtHead(a, k);
    }

    lemma WellLinked()
      requires Threaded()
      ensures Disjoint(table.rings)
    {
    }

    lemma HeadHolds(a: nat)
      requires Threaded() && a < |contents|
      ensures |table.rings| == |heads| == |contents| && |table.rings[a]| == |contents[a]| + 1
      ensures table.rings[a][0] == heads[a] < |ind[..]| == |value[..]| && ind[heads[a]] == -1
    {
      hide Linked;
      assert NodeHolds(contents[a], 0, table.rings[a][0], ind[..], value[..]);
    }

    /** `array_insert`. */
    method Insert(a: nat, i: int, v: Value, x: nat) returns (rc: int)
      requires Valid() && a < |contents| && x < table.next.Length && !Member(table.rings, x)
      modifies this, table, table.next, table.prev, ind, value
      ensures Valid() && contents == old(contents)[a := SparseEntries.Insert(old(contents)[a], i, v)]
      ensures rc == if old(contents)[a] == [] && i < 0 then -1 else 0
    {
      hide Linked, Stored, Ascending, SparseEntries.Insert;
      assert CountOk(contents[a], maxIndex[a], numElements[a]);
      CreateElement(x, i, v);
      if i > maxIndex[a] {
        InsertLast(a, x);
        return 0;
      }
      rc := InsertInside(a, i, v, x);
    }

    /** The fast path: `x` goes to the end. */
    method InsertLast(a: nat, x: nat)
      requires Valid() && a < |contents| && x < table.next.Length && !Member(table.rings, x)
      requires ind[x] > MaxIndex(contents[a])
      modifies this, table, table.next, table.prev
      ensures Valid() && contents == old(contents)[a := SparseEntries.Insert(old(contents)[a], ind[x], value[x])]
    {
      ghost var e := contents[a];
      assert CountOk(e, maxIndex[a], numElements[a]) && |table.rings[a]| == |e| + 1 && heads[a] == table.rings[a][0];
      hide Linked, Stored, Ascending, SparseEntries.Insert, Disjoint, MaxIndex, PutAt;
      InsertFound(e, ind[x], value[x], |e|);
      MaxIndexAtEnd(e, (ind[x], value[x]));
      HookIn(a, heads[a], x, 0);
      maxIndex := maxIndex[a := ind[x]];
      assert CountOk(contents[a], maxIndex[a], numElements[a]);
    }

    /** The search for the spot, and what is done there. */
    method InsertInside(a: nat, i: int, v: Value, x: nat) returns (rc: int)
      requires Valid() && a < |contents| && x < table.next.Length && !Member(table.rings, x)
      requires ind[x] == i && value[x] == v && i <= MaxIndex(contents[a])
      modifies this, table, table.next, table.prev, value
      ensures Valid() && contents == old(contents)[a := SparseEntries.Insert(old(contents)[a], i, v)]
      ensures rc == if old(contents)[a] == [] && i < 0 then -1 else 0
    {
      hide Linked, Stored, Ascending, SparseEntries.Insert;
      assert CountOk(contents[a], maxIndex[a], numElements[a]);
      var ae;
      ghost var k;
      ae, k := FindSpot(a, i);
      if ae == heads[a] {
        assert contents[a] == [] && SparseEntries.Insert([], i, v) == [] by { InsertNowhere(i, v); }
        assert contents == contents[a := contents[a]];
        InvalidateLastref(a);
        return -1;
      }
      PlaceAt(a, i, v, x, ae, k);
      return 0;
    }

    /** At the spot: a new value for the element there, or a new element before it. */
    method PlaceAt(a: nat, i: int, v: Value, x: nat, ae: nat, ghost k: nat)
      requires Valid() && a < |contents| && x < table.next.Length && !Member(table.rings, x)
      requires ind[x] == i && value[x] == v
      requires 1 <= k <= |contents[a]| && |table.rings[a]| == |contents[a]| + 1 && ae == table.rings[a][k]
      requires ae < ind.Length && ind[ae] == contents[a][k - 1].0 >= i && (k > 1 ==> contents[a][k - 2].0 < i)
      modifies this, table, table.next, table.prev, value
      ensures Valid() && contents == old(contents)[a := SparseEntries.Insert(old(contents)[a], i, v)]
    {
      hide Linked, Stored, Ascending, MaxIndex, PutAt, Disjoint, SparseEntries.Insert;
      assert CountOk(contents[a], maxIndex[a], numElements[a]);
      InsertFound(contents[a], i, v, k - 1);
      InsertInsideCount(contents[a], i, v, k - 1);
      if ind[ae] == i {
        Replace(a, ae, v, k);
      } else {
        HookIn(a, ae, x, k);
      }
      assert CountOk(contents[a], maxIndex[a], numElements[a]);
    }

    /** `ADD_BEFORE` and `SET_LASTREF`. */
    method HookIn(a: nat, at: nat, x: nat, ghost k: nat)
      requires Listed() && a < |contents| && k < |table.rings[a]| && at == table.rings[a][k]
      requires x < table.next.Length && !Member(table.rings, x)
      requires Ascending(PutAt(contents[a], if k == 0 then |contents[a]| else k - 1, (ind[x], value[x])))
      modifies `contents, `numElements, `lastarray, `lastref, table, table.next, table.prev
      ensures Listed() && CacheGood() && numElements == old(numElements)[a := old(numElements)[a] + 1]
      ensures var p := if k == 0 then |old(contents)[a]| else k - 1;
              contents == old(contents)[a := PutAt(old(contents)[a], p, (ind[x], value[x]))]
    {
      ghost var p := if k == 0 then |contents[a]| else k - 1;
      assert |table.rings[a]| == |contents[a]| + 1;
      hide Linked, Stored, Ascending;
      InsertedIsMember(table.rings, a, p + 1, x);
      LinkBefore(a, at, x, k);
      lastarray, lastref := Some(a), x;
    }

    /** A new value for the element at position `k`, and `SET_LASTREF`. */
    method Replace(a: nat, ae: nat, v: Value, ghost k: nat)
      requires Listed() && a < |contents| && 0 < k < |table.rings[a]| && ae == table.rings[a][k]
      requires Ascending(contents[a][k - 1 := (ind[ae], v)])
      modifies `contents, `lastarray, `lastref, value
      ensures Listed() && CacheGood()
      ensures contents == old(contents)[a := old(contents)[a][k - 1 := (ind[ae], v)]]
    {
      HeadOnly(a, k);
      lastarray, lastref := Some(a), ae;
      StoreUpdate(contents, table.rings, ind[..], value[..], a, k, ind[ae], v);
      value[ae] := v;
      assert value[..] == old(value[..])[ae := v] && ind[..] == ind[..][ae := ind[ae]];
      contents := contents[a := contents[a][k - 1 := (ind[ae], v)]];
    }

    lemma InsertedIsMember(rings: seq<seq<nat>>, a: nat, k: nat, x: nat)
      requires a < |rings| && 0 < k <= |rings[a]| && !Member(rings, x)
      ensures var ring := InsertAt(rings[a], k, x);
              x in ring && x != ring[0]
    {
      assert rings[a][0] in rings[a];
      assert InsertAt(rings[a], k, x)[k] == x;
    }

    /** The loop of `array_reference` and `array_remove`, from position `k0` on. */
    method FindEqual(a: nat, start: nat, ghost k0: nat, i: int) returns (ae: nat, ghost k: nat)
      requires Listed() && a < |contents| && 1 <= k0 <= |table.rings[a]|
      requires start == if k0 < |table.rings[a]| then table.rings[a][k0] else heads[a]
      ensures k0 <= k <= |table.rings[a]| == |contents[a]| + 1
      ensures ae == (if k < |table.rings[a]| then table.rings[a][k] else heads[a])
      ensures forall m :: k0 - 1 <= m < k - 1 ==> contents[a][m].0 != i
      ensures if k < |table.rings[a]|
              then ae != heads[a] && ae < ind.Length && (i, value[ae]) == contents[a][k - 1] && ind[ae] == i
              else ae == heads[a]
    {
      ghost var ring := table.rings[a];
      assert |ring| == |contents[a]| + 1 && heads[a] == ring[0];
      hide Linked, Stored, Ascending;
      ae, k := start, k0;
      while ae != heads[a]
        invariant k0 <= k <= |ring|
        invariant ae == if k < |ring| then ring[k] else heads[a]
        invariant forall m :: k0 - 1 <= m < k - 1 ==> contents[a][m].0 != i
        decreases |ring| - k
      {
        HeadOnly(a, k);
        if ind[ae] == i {
          return;
        }
        ae := Forward(ae, a, k);
        k := k + 1;
      }
      AtHead(a, k);
    }

    /** Where `array_reference` starts: at the remembered element if that is not past `i`. */
    method StartAt(a: nat, i: int) returns (ae: nat, ghost k: nat)
      requires Valid() && a < |contents|
      ensures 1 <= k <= |table.rings[a]| == |contents[a]| + 1
      ensures ae == (if k < |table.rings[a]| then table.rings[a][k] else heads[a])
      ensures forall m :: 0 <= m < k - 1 ==> contents[a][m].0 < i
    {
      assert |table.rings[a]| == |contents[a]| + 1 && heads[a] == table.rings[a][0];
      hide Linked, Stored;
      if lastarray == Some(a) {
        k :| 0 <= k < |table.rings[a]| && table.rings[a][k] == lastref;
        HeadOnly(a, k);
        if i >= ind[lastref] {
          ae := lastref;
          return;
        }
      }
      ae := Forward(heads[a], a, 0);
      k := 1;
    }

    /** `array_reference`: starting at the remembered element finds what a lookup in the map finds. */
    method Reference(a: nat, i: int) returns (r: Value)
      requires Valid() && a < |contents|
      modifies `lastarray, `lastref
      ensures Valid()
      ensures r == if i in ToMap(contents[a]) then ToMap(contents[a])[i] else None
    {
      hide Linked, Stored, ToMap;
      assert CountOk(contents[a], maxIndex[a], numElements[a]);
      if numElements[a] == 0 || i > maxIndex[a] {
        LookupNone(contents[a], i);
        return None;
      }
      var ae;
      ghost var k;
      ae, k := StartAt(a, i);
      ae, k := FindEqual(a, ae, k, i);
      if ae != heads[a] {
        lastarray, lastref := Some(a), ae;
        LookupFound(contents[a], i, k - 1);
        HeadHolds(a);
        return value[ae];
      }
      LookupNone(contents[a], i);
      lastarray := None;
      return None;
    }

    /** `array_remove`. */
    method Remove(a: nat, i: int) returns (removed: Option<nat>)
      requires Valid() && a < |contents|
      modifies this, table, table.next, table.prev
      ensures Valid() && contents == old(contents)[a := SparseEntries.Remove(old(contents)[a], i)]
      ensures removed.Some? <==> i in ToMap(old(contents)[a])
      ensures removed.Some? ==>
                removed.value < ind.Length && ind[removed.value] == i && !Member(table.rings, removed.value)
                && value[removed.value] == ToMap(old(contents)[a])[i]
    {
      ghost var e := contents[a];
      assert CountOk(e, maxIndex[a], numElements[a]) && |table.rings[a]| == |e| + 1 && heads[a] == table.rings[a][0];
      hide Linked, Stored, ToMap, SparseEntries.Remove;
      assert contents == contents[a := e];
      if numElements[a] == 0 {
        LookupNone(e, i);
        return None;
      }
      var first := Forward(heads[a], a, 0);
      var ae;
      ghost var k;
      ae, k := FindEqual(a, first, 1, i);
      if ae == heads[a] {
        LookupNone(e, i);
        return None;
      }
      LookupFound(e, i, k - 1);
      Drop(a, i, ae, k);
      return Some(ae);
    }

    /** Unlink the element at position `k`. */
    method Drop(a: nat, i: int, ae: nat, ghost k: nat)
      requires Valid() && a < |contents| && 0 < k < |table.rings[a]| == |contents[a]| + 1 && ae == table.rings[a][k]
      requires contents[a][k - 1].0 == i
      modifies this, table, table.next, table.prev
      ensures Valid() && contents == old(contents)[a := old(contents)[a][..k - 1] + old(contents)[a][k..]]
      ensures !Member(table.rings, ae)
    {
      hide Linked, Stored, Ascending, MaxIndex, Disjoint, Cut, Member;
      assert CountOk(contents[a], maxIndex[a], numElements[a]);
      HeadHolds(a);
      MaxIndexWithout(contents[a], k - 1);
      BeforeHolds(a, k);
      Gone(a, k);
      var p := Backward(ae, a, k);
      var n := Forward(ae, a, k);
      CutOut(a, p, n, k, k + 1);
      numElements := numElements[a := numElements[a] - 1];
      if i == maxIndex[a] {
        maxIndex := maxIndex[a := ind[p]];
      }
      InvalidateLastref(a);
      assert CountOk(contents[a], maxIndex[a], numElements[a]);
    }

    /** The node before position `k`. */
    lemma BeforeHolds(a: nat, k: nat)
      requires Threaded() && a < |contents| && 0 < k < |table.rings[a]|
      ensures |table.rings[a]| == |contents[a]| + 1 && table.rings[a][k - 1] < ind.Length
      ensures Pred(table.rings[a], k) == table.rings[a][k - 1]
      ensures Succ(table.rings[a], k) == table.rings[a][if k + 1 < |table.rings[a]| then k + 1 else 0]
      ensures ind[table.rings[a][k - 1]] == if k > 1 then contents[a][k - 2].0 else -1
    {
      hide Linked, Stored;
      HeadHolds(a);
      if k > 1 { HeadOnly(a, k - 1); }
    }

    /** An element that is taken out is in no list. */
    lemma Gone(a: nat, k: nat)
      requires Threaded() && a < |contents| && 0 < k < |table.rings[a]|
      ensures !Member(table.rings[a := Cut(table.rings[a], k, k + 1)], table.rings[a][k])
    {
      WellLinked();
      hide Linked, Stored, Member, Cut;
      CutDisjoint(table.rings, a, k, k + 1);
    }

    /** Take the elements at positions `i` to `j - 1` out of the list. */
    method CutOut(a: nat, p: nat, n: nat, ghost i: nat, ghost j: nat)
      requires Listed() && a < |contents| && 0 < i <= j <= |table.rings[a]| == |contents[a]| + 1
      requires p == table.rings[a][i - 1] && n == table.rings[a][if j < |table.rings[a]| then j else 0]
      modifies `contents, table, table.next, table.prev
      ensures Listed() && contents == old(contents)[a := old(contents)[a][..i - 1] + old(contents)[a][j - 1..]]
      ensures table.rings == old(table.rings)[a := Cut(old(table.rings)[a], i, j)]
      ensures table.next[..] == old(table.next[..])[p := n]
    {
      hide Linked, Stored, Cut, Disjoint;
      ghost var e := contents[a];
      HeadHolds(a);
      StoreCut(contents, table.rings, ind[..], value[..], a, i, j);
      CutHead(table.rings[a], i, j);
      table.Unlink(p, n, a, i, j);
      table.HaveHeads();
      contents := contents[a := e[..i - 1] + e[j - 1..]];
      assert forall b | 0 <= b < |contents| :: heads[b] == table.rings[b][0];
    }

    /** The index of the last element, or -1. */
    method LastIndex(a: nat) returns (m: int)
      requires Threaded() && a < |contents|
      ensures m == MaxIndex(contents[a])
    {
      hide Linked, Stored;
      HeadHolds(a);
      var last := Backward(heads[a], a, 0);
      if |contents[a]| > 0 { HeadOnly(a, |contents[a]|); }
      m := ind[last];
    }

    /** `array_flush`. */
    method Flush(a: nat)
      requires Valid() && a < |contents|
      modifies this, table, table.next, table.prev
      ensures Valid() && contents == old(contents)[a := []]
    {
      hide Linked, Stored, Disjoint;
      HeadHolds(a);
      CutOut(a, heads[a], heads[a], 1, |table.rings[a]|);
      maxIndex := maxIndex[a := -1];
      numElements := numElements[a := 0];
      InvalidateLastref(a);
      assert contents[a] == [];
    }

    /** Nodes that are in no array, each named once. */
    ghost predicate Spare(xs: seq<nat>)
      reads table, table.next
    {
      && (forall k :: 0 <= k < |xs| ==> xs[k] < table.next.Length && !Member(table.rings, xs[k]))
      && (forall j, k :: 0 <= j < k < |xs| ==> xs[j] != xs[k])
    }

    /** `array_copy`, with the nodes `xs` for the new head and elements. */
    method Copy(a: nat, xs: seq<nat>) returns (a1: nat)
      requires Valid() && a < |contents| && |xs| == |contents[a]| + 1 && Spare(xs)
      modifies this, table, table.next, table.prev, ind, value
      ensures Valid() && a1 == |old(contents)| && contents == old(contents) + [old(contents)[a]]
    {
      hide Linked, Stored, Disjoint, Ascending;
      ghost var was := contents;
      HeadHolds(a);
      a1 := Create(xs[0]);
      CountsOf(was);
      maxIndex := maxIndex[a1 := maxIndex[a]];
      numElements := numElements[a1 := numElements[a]];
      assert Spare(xs[1..]) by { forall j | 1 <= j < |xs| ensures !Member(table.rings, xs[j]) {} }
      CopyElements(a1, a, xs[1..]);
      assert contents == was + [was[a]];
    }

    lemma CountsOf(was: seq<seq<Entry>>)
      requires Valid() && contents == was + [[]]
      ensures forall b :: 0 <= b < |was| ==> Ascending(was[b]) && CountOk(was[b], maxIndex[b], numElements[b])
    {
      hide Linked, Stored, Ascending, CountOk;
      assert forall b | 0 <= b < |was| :: contents[b] == was[b];
    }

    /** The loop of `array_copy`. */
    method CopyElements(a1: nat, a: nat, xs: seq<nat>)
      requires Threaded() && a < a1 == |contents| - 1 && contents[a1] == [] && Spare(xs) && |xs| == |contents[a]|
      modifies `contents, table, table.next, table.prev, ind, value
      ensures Threaded() && contents == old(contents)[a1 := old(contents)[a]]
      ensures |table.rings| == |old(table.rings)| == |contents|
      ensures forall b :: 0 <= b < a1 ==> table.rings[b] == old(table.rings)[b]
    {
      hide Linked, Stored, Disjoint;
      ghost var was, rings := contents, table.rings;
      HeadHolds(a);
      var spare := xs;
      var ae := Forward(heads[a], a, 0);
      ghost var k := 1;
      while ae != heads[a]
        invariant Threaded() && 1 <= k <= |rings[a]| && |contents| == |table.rings| == |rings|
        invariant forall b :: 0 <= b < a1 ==> table.rings[b] == rings[b]
        invariant contents == was[a1 := was[a][..k - 1]]
        invariant ae == if k < |rings[a]| then rings[a][k] else heads[a]
        invariant Spare(spare) && |spare| == |rings[a]| - k
        decreases |rings[a]| - k
      {
        HeadOnly(a, k);
        CopyElement(a1, a, ae, k, spare);
        assert was[a][..k] == was[a][..k - 1] + [was[a][k - 1]];
        spare := spare[1..];
        ae := Forward(ae, a, k);
        k := k + 1;
      }
      AtHead(a, k);
      assert was[a][..k - 1] == was[a];
    }

    /** A copy of the element at position `k` of array `a` at the end of array `a1`. */
    method CopyElement(a1: nat, a: nat, ae: nat, ghost k: nat, spare: seq<nat>)
      requires Threaded() && a < a1 < |contents| == |table.rings| && spare != [] && Spare(spare)
      requires 0 < k < |table.rings[a]| == |contents[a]| + 1 && ae == table.rings[a][k]
      modifies `contents, table, table.next, table.prev, ind, value
      ensures Threaded() && |contents| == |table.rings|
      ensures contents == old(contents)[a1 := old(contents)[a1] + [old(contents)[a][k - 1]]]
      ensures forall b :: 0 <= b < a1 ==> table.rings[b] == old(table.rings)[b]
      ensures |table.rings| == |old(table.rings)|
      ensures Spare(spare[1..])
    {
      hide Linked, Stored, Disjoint;
      var x := spare[0];
      HeadOnly(a, k);
      CreateElement(x, ind[ae], value[ae]);
      HeadHolds(a1);
      ghost var rings := table.rings;
      ghost var e := contents[a1];
      AddBefore(a1, heads[a1], x, 0);
      assert PutAt(e, |e|, (ind[x], value[x])) == e + [old(contents)[a][k - 1]];
      forall j | 1 <= j < |spare| ensures !Member(table.rings, spare[j]) {
        InsertMember(rings, a1, |rings[a1]|, x, spare[j]);
      }
    }

    /** The renumbering loops: add `n` to every index from position `k0` on. */
    method RenumberFrom(a: nat, start: nat, ghost k0: nat, n: int)
      requires Threaded() && a < |contents| && 1 <= k0 <= |table.rings[a]| == |contents[a]| + 1
      requires start == if k0 < |table.rings[a]| then table.rings[a][k0] else heads[a]
      modifies `contents, ind
      ensures Threaded()
      ensures contents == old(contents)[a := old(contents)[a][..k0 - 1] + Renumber(old(contents)[a][k0 - 1..], n)]
      ensures forall y :: 0 <= y < ind.Length && !Member(table.rings, y) ==> ind[y] == old(ind[y])
    {
      hide Linked, Stored, Disjoint, Half, Renumber, MaxIndex, Ascending, Threaded, Member;
      HeadHolds(a);
      ghost var all, ring := contents, table.rings[a];
      var ae := start;
      ghost var k := k0;
      HalfEnds(all[a], k0 - 1, n);
      while ae != heads[a]
        invariant k0 <= k <= |ring| && Threaded()
        invariant ae == if k < |ring| then ring[k] else heads[a]
        invariant contents == all[a := Half(all[a], k0 - 1, k - 1, n)]
        invariant forall y :: 0 <= y < ind.Length && !Member(table.rings, y) ==> ind[y] == old(ind[y])
        decreases |ring| - k
      {
        ae := RenumberStep(a, ae, k, n, all, k0);
        k := k + 1;
      }
      AtHead(a, k);
    }

    /** One element renumbered; the next element, or the head. */
    method RenumberStep(a: nat, ae: nat, ghost k: nat, n: int, ghost all: seq<seq<Entry>>, ghost k0: nat)
        returns (r: nat)
      requires Threaded() && a < |all| == |contents| && 1 <= k0 <= k < |table.rings[a]| == |all[a]| + 1
      requires ae == table.rings[a][k]
      requires contents == all[a := Half(all[a], k0 - 1, k - 1, n)]
      modifies `contents, ind
      ensures Threaded()
      ensures contents == all[a := Half(all[a], k0 - 1, k, n)]
      ensures forall y :: 0 <= y < ind.Length && !Member(table.rings, y) ==> ind[y] == old(ind[y])
      ensures r == if k + 1 < |table.rings[a]| then table.rings[a][k + 1] else heads[a]
    {
      hide Linked, Stored, Disjoint, Half, Member;
      HalfStep(all[a], k0 - 1, k - 1, n);
      r := Forward(ae, a, k);
      AddTo(a, ae, k, n);
    }

    /** The index of one element changes. */
    method AddTo(a: nat, ae: nat, ghost k: nat, n: int)
      requires Threaded() && a < |contents| && 0 < k < |table.rings[a]| == |contents[a]| + 1 && ae == table.rings[a][k]
      modifies `contents, ind
      ensures Threaded()
      ensures var x := old(contents)[a][k - 1];
              contents == old(contents)[a := old(contents)[a][k - 1 := (x.0 + n, x.1)]]
      ensures forall y :: 0 <= y < ind.Length && !Member(table.rings, y) ==> ind[y] == old(ind[y])
    {
      hide Linked, Stored, Disjoint;
      ghost var x := contents[a][k - 1];
      HeadHolds(a);
      HeadOnly(a, k);
      WellLinked();
      StoreUpdate(contents, table.rings, ind[..], value[..], a, k, x.0 + n, x.1);
      ind[ae] := ind[ae] + n;
      assert ind[..] == old(ind[..])[ae := x.0 + n] && value[..] == value[..][ae := x.1];
      contents := contents[a := contents[a][k - 1 := (x.0 + n, x.1)]];
    }

    /** The first loop of `array_shift`: `n` elements on, or round to the head. */
    method Walk(a: nat, n: int) returns (ae: nat, ghost k: nat)
      requires Threaded() && a < |contents| && n > 0
      ensures 1 <= k <= |table.rings[a]| == |contents[a]| + 1
      ensures k == if n < |contents[a]| then n + 1 else |contents[a]| + 1
      ensures ae == (if k < |table.rings[a]| then table.rings[a][k] else heads[a])
      ensures k < |table.rings[a]| ==> ae != heads[a]
    {
      hide Linked, Stored, Disjoint;
      HeadHolds(a);
      ae := Forward(heads[a], a, 0);
      k := 1;
      var i := 0;
      while ae != heads[a] && i < n
        invariant 1 <= k <= |table.rings[a]| && k == i + 1 && i <= n
        invariant ae == if k < |table.rings[a]| then table.rings[a][k] else heads[a]
        decreases |table.rings[a]| - k
      {
        ae := Forward(ae, a, k);
        i := i + 1;
        k := k + 1;
      }
      AtHead(a, k);
    }

    /** `array_shift`, with the elements shifted out disposed of. */
    method Shift(a: nat, n: int)
      requires Valid() && a < |contents|
      modifies this, table, table.next, table.prev, ind
      ensures Valid() && contents == old(contents)[a := SparseEntries.Shift(old(contents)[a], n)]
    {
      hide Linked, Stored, Disjoint, Ascending, MaxIndex, Renumber;
      ghost var e := contents[a];
      assert CountOk(e, maxIndex[a], numElements[a]);
      if numElements[a] == 0 || n <= 0 {
        assert contents == contents[a := SparseEntries.Shift(e, n)];
        return;
      }
      ShiftKeepsOrder(e, n);
      InvalidateLastref(a);
      var ae;
      ghost var k;
      ae, k := Walk(a, n);
      if ae == heads[a] {
        Flush(a);
        return;
      }
      HeadHolds(a);
      ShiftParts(e, n);
      CutOut(a, heads[a], ae, 1, k);
      numElements := numElements[a := numElements[a] - n];
      Finish(a, ae, 1, -n);
    }

    /** The elements `xs` are linked in this order, up to a null pointer. */
    ghost predicate Chained(xs: seq<nat>)
      reads table.next
    {
      forall k :: 0 <= k < |xs| ==>
        xs[k] < table.next.Length && table.next[xs[k]] == if k + 1 < |xs| then xs[k + 1] else NIL
    }

    /** The elements `xs`, from the first on, have the entries `e`. */
    ghost predicate Entries(xs: seq<nat>, e: seq<Entry>)
      reads ind, value
    {
      && |xs| <= |e| && ind.Length == value.Length
      && forall k :: 0 <= k < |xs| ==> xs[k] < ind.Length && (ind[xs[k]], value[xs[k]]) == e[k]
    }

    /** `array_shift` without AS_DISPOSE: the elements shifted out are handed over as a chain. */
    method ShiftOut(a: nat, n: int) returns (ret: Option<nat>, ghost xs: seq<nat>)
      requires Valid() && a < |contents|
      modifies this, table, table.next, table.prev, ind
      ensures Valid() && contents == old(contents)[a := SparseEntries.Shift(old(contents)[a], n)]
      ensures |xs| == |old(contents)[a]| - |contents[a]| && ret == if xs == [] then None else Some(xs[0])
      ensures Chained(xs) && Spare(xs) && Entries(xs, old(contents)[a])
    {
      hide Linked, Stored, Disjoint, Ascending, MaxIndex, Renumber, Member;
      ghost var e := contents[a];
      assert CountOk(e, maxIndex[a], numElements[a]);
      xs := [];
      if numElements[a] == 0 || n <= 0 {
        assert contents == contents[a := SparseEntries.Shift(e, n)];
        return None, xs;
      }
      ShiftKeepsOrder(e, n);
      InvalidateLastref(a);
      HeadHolds(a);
      var first := Forward(heads[a], a, 0);
      var ae;
      ghost var k;
      ae, k := Walk(a, n);
      var last;
      if ae == heads[a] {
        last := WalkToLast(a, first);
      } else {
        last := Backward(ae, a, k);
      }
      ret := Some(first);
      xs := SliceOff(a, ae, last, k, n);
    }

    /** From the point on where the first element to be kept is known. */
    method SliceOff(a: nat, ae: nat, last: nat, ghost k: nat, n: int) returns (ghost xs: seq<nat>)
      requires Valid() && a < |contents| && 1 < k <= |table.rings[a]| == |contents[a]| + 1 && n > 0
      requires lastarray != Some(a) && k == if n < |contents[a]| then n + 1 else |contents[a]| + 1
      requires ae == (if k < |table.rings[a]| then table.rings[a][k] else heads[a]) && last == table.rings[a][k - 1]
      modifies this, table, table.next, table.prev, ind
      ensures Valid() && contents == old(contents)[a := SparseEntries.Shift(old(contents)[a], n)]
      ensures xs == old(table.rings)[a][1..k] && Chained(xs) && Spare(xs) && Entries(xs, old(contents)[a])
    {
      hide Linked, Stored, Disjoint, Ascending, MaxIndex, Renumber, Member, Spare, Chained, Entries;
      ghost var e := contents[a];
      assert CountOk(e, maxIndex[a], numElements[a]);
      ShiftKeepsOrder(e, n);
      HeadHolds(a);
      AtHead(a, k);
      xs := Slice(a, ae, last, k);
      if ae == heads[a] {
        maxIndex := maxIndex[a := -1];
        numElements := numElements[a := 0];
        assert contents[a] == [];
        assert CountOk([], -1, 0) by { NothingLeft(); }
      } else {
        numElements := numElements[a := numElements[a] - n];
        FinishRest(a, ae, -n, xs, e);
      }
    }

    /** Renumber all elements; the elements `xs` are in no array, so they keep their entries. */
    method FinishRest(a: nat, ae: nat, n: int, ghost xs: seq<nat>, ghost e: seq<Entry>)
      requires Threaded() && CacheGood() && a < |contents| && 1 <= |table.rings[a]| == |contents[a]| + 1
      requires ae == if 1 < |table.rings[a]| then table.rings[a][1] else heads[a]
      requires forall b :: 0 <= b < |contents| && b != a ==>
                 Ascending(contents[b]) && CountOk(contents[b], maxIndex[b], numElements[b])
      requires numElements[a] == |contents[a]| && Spare(xs) && Entries(xs, e)
      modifies `contents, `maxIndex, ind
      ensures Threaded() && CacheGood() && AllCounted(contents, maxIndex, numElements)
      ensures Valid() <==> Ascending(contents[a])
      ensures contents == old(contents)[a := Renumber(old(contents)[a], n)]
      ensures Entries(xs, e)
    {
      hide Linked, Stored, Disjoint, Ascending, MaxIndex, Renumber, Member, AllCounted;
      ghost var f := contents[a];
      Finish(a, ae, 1, n);
      assert f[..0] + Renumber(f[0..], n) == Renumber(f, n) by { assert f[0..] == f; }
      assert forall i | 0 <= i < |xs| :: ind[xs[i]] == e[i].0;
    }

    lemma NothingLeft()
      ensures CountOk([], -1, 0)
    {
    }

    /** The loop of `array_shift` that looks for the last element. */
    method WalkToLast(a: nat, first: nat) returns (ae: nat)
      requires Threaded() && a < |contents| && 1 < |table.rings[a]| == |contents[a]| + 1 && first == table.rings[a][1]
      ensures ae == table.rings[a][|table.rings[a]| - 1]
    {
      hide Linked, Stored, Disjoint;
      HeadHolds(a);
      ae := first;
      ghost var k := 1;
      var r := Forward(ae, a, k);
      while r != heads[a]
        invariant 1 <= k < |table.rings[a]| && ae == table.rings[a][k] && r == Succ(table.rings[a], k)
        decreases |table.rings[a]| - k
      {
        ae, k := r, k + 1;
        r := Forward(ae, a, k);
      }
      AtHead(a, k + 1);
    }

    /** Take the elements before position `k` out of the list and end their chain with a null pointer. */
    method Slice(a: nat, ae: nat, last: nat, ghost k: nat) returns (ghost xs: seq<nat>)
      requires Listed() && a < |contents| && 1 < k <= |table.rings[a]| == |contents[a]| + 1
      requires ae == (if k < |table.rings[a]| then table.rings[a][k] else heads[a]) && last == table.rings[a][k - 1]
      modifies `contents, table, table.next, table.prev
      ensures Listed() && contents == old(contents)[a := old(contents)[a][k - 1..]]
      ensures table.rings == old(table.rings)[a := Cut(old(table.rings)[a], 1, k)]
      ensures xs == old(table.rings)[a][1..k] && Chained(xs) && Spare(xs) && Entries(xs, old(contents)[a])
    {
      hide Linked, Stored, Disjoint, Cut, Member, Ascending;
      HeadHolds(a);
      xs := table.rings[a][1..k];
      SliceHolds(a, k);
      CutOut(a, heads[a], ae, 1, k);
      table.EndChain(last);
      assert old(contents)[a][..0] + old(contents)[a][k - 1..] == old(contents)[a][k - 1..];
    }

    /** The elements before position `k`: their links, their entries, and where they are once cut out. */
    lemma SliceHolds(a: nat, k: nat)
      requires Threaded() && a < |contents| && 1 < k <= |table.rings[a]| == |contents[a]| + 1
      ensures var xs := table.rings[a][1..k];
        && Entries(xs, contents[a])
        && (forall i :: 0 <= i < |xs| ==> !Member(table.rings[a := Cut(table.rings[a], 1, k)], xs[i]))
        && (forall i, j :: 0 <= i < j < |xs| ==> xs[i] != xs[j])
        && (forall i :: 0 <= i < |xs| ==> xs[i] != heads[a])
        && forall i :: 0 <= i < |xs| - 1 ==> table.next[xs[i]] == xs[i + 1]
    {
      var ring, xs := table.rings[a], table.rings[a][1..k];
      WellLinked();
      CutDisjoint(table.rings, a, 1, k);
      hide Stored, Member, Cut;
      forall i | 0 <= i < |xs|
        ensures xs[i] == ring[i + 1] && xs[i] < ind.Length && (ind[xs[i]], value[xs[i]]) == contents[a][i]
        ensures xs[i] != heads[a] && !Member(table.rings[a := Cut(table.rings[a], 1, k)], xs[i])
      {
        HeadOnly(a, i + 1);
      }
    }

    /** Renumber from position `k0` on and look up the new largest index. */
    method Finish(a: nat, ae: nat, ghost k0: nat, n: int)
      requires Threaded() && CacheGood() && a < |contents| && 1 <= k0 <= |table.rings[a]| == |contents[a]| + 1
      requires ae == if k0 < |table.rings[a]| then table.rings[a][k0] else heads[a]
      requires forall b :: 0 <= b < |contents| && b != a ==>
                 Ascending(contents[b]) && CountOk(contents[b], maxIndex[b], numElements[b])
      requires numElements[a] == |contents[a]|
      modifies `contents, `maxIndex, ind
      ensures Threaded() && CacheGood() && AllCounted(contents, maxIndex, numElements)
      ensures Valid() <==> Ascending(contents[a])
      ensures table.rings == old(table.rings)
      ensures contents == old(contents)[a := old(contents)[a][..k0 - 1] + Renumber(old(contents)[a][k0 - 1..], n)]
      ensures forall y :: 0 <= y < ind.Length && !Member(table.rings, y) ==> ind[y] == old(ind[y])
    {
      hide Linked, Stored, Disjoint, Ascending, MaxIndex, Renumber, Member;
      RenumberFrom(a, ae, k0, n);
      var last := LastIndex(a);
      maxIndex := maxIndex[a := last];
      assert CountOk(contents[a], maxIndex[a], numElements[a]);
    }

    /** `array_rshift`. The elements stay in order exactly if the value pushed comes before all others;
        everything else is right in any case. */
    method RShift(a: nat, n: int, s: Value, x: nat) returns (size: int)
      requires Valid() && a < |contents| && x < table.next.Length && !Member(table.rings, x)
      modifies this, table, table.next, table.prev, ind, value
      ensures Threaded() && CacheGood() && AllCounted(contents, maxIndex, numElements)
      ensures contents == old(contents)[a := SparseEntries.RShift(old(contents)[a], n, s)]
      ensures Valid() <==> PushFits(old(contents)[a], n, s)
      ensures size == |contents[a]|
    {
      hide Linked, Stored, Disjoint, MaxIndex, Ascending, Renumber;
      ghost var e := contents[a];
      assert CountOk(e, maxIndex[a], numElements[a]);
      if numElements[a] == 0 && s == None {
        assert contents == contents[a := SparseEntries.RShift(e, n, s)] by { NothingToPush(n); }
        return 0;
      } else if n <= 0 {
        assert contents == contents[a := SparseEntries.RShift(e, n, s)];
        return numElements[a];
      }
      size := RShiftOn(a, n, s, x);
    }

    /** The rest of `array_rshift`, once there is something to do. */
    method RShiftOn(a: nat, n: int, s: Value, x: nat) returns (size: int)
      requires Valid() && a < |contents| && x < table.next.Length && !Member(table.rings, x) && n > 0
      modifies this, table, table.next, table.prev, ind, value
      ensures Threaded() && CacheGood() && AllCounted(contents, maxIndex, numElements)
      ensures contents == old(contents)[a := SparseEntries.RShift(old(contents)[a], n, s)]
      ensures Valid() <==> PushFits(old(contents)[a], n, s)
      ensures size == |contents[a]|
    {
      hide Linked, Stored, Disjoint, MaxIndex, Ascending, Renumber, Member, PushFits, SparseEntries.RShift;
      ghost var e := contents[a];
      assert CountOk(e, maxIndex[a], numElements[a]);
      HeadHolds(a);
      RShiftParts(e, n, s);
      RShiftOrder(e, n, s);
      var ae := Forward(heads[a], a, 0);
      if s != None {
        NotCachedWhenEmpty(a);
        Prepend(a, ae, s, x);
        if numElements[a] == 1 {
          maxIndex := maxIndex[a := 0];
          OneEntry(s, n);
          return 1;
        }
        ae := Forward(x, a, 1);
      }
      size := FinishRShift(a, ae, if s != None then 2 else 1, n);
    }

    /** Renumber from position `k0` on and forget the remembered element. */
    method FinishRShift(a: nat, ae: nat, ghost k0: nat, n: int) returns (size: int)
      requires Threaded() && CacheGood() && a < |contents| && 1 <= k0 <= |table.rings[a]| == |contents[a]| + 1
      requires ae == if k0 < |table.rings[a]| then table.rings[a][k0] else heads[a]
      requires forall b :: 0 <= b < |contents| && b != a ==>
                 Ascending(contents[b]) && CountOk(contents[b], maxIndex[b], numElements[b])
      requires numElements[a] == |contents[a]|
      modifies `contents, `maxIndex, `lastarray, ind
      ensures Threaded() && CacheGood() && AllCounted(contents, maxIndex, numElements)
      ensures Valid() <==> Ascending(contents[a])
      ensures contents == old(contents)[a := old(contents)[a][..k0 - 1] + Renumber(old(contents)[a][k0 - 1..], n)]
      ensures size == |contents[a]|
    {
      hide Linked, Stored, Disjoint, MaxIndex, Ascending, Renumber;
      Finish(a, ae, k0, n);
      InvalidateLastref(a);
      size := numElements[a];
      assert CountOk(contents[a], maxIndex[a], numElements[a]);
    }

    lemma NotCachedWhenEmpty(a: nat)
      requires Valid() && a < |contents|
      ensures contents[a] == [] ==> lastarray != Some(a)
    {
    }

    /** A new element with index 0 before the first one. */
    method Prepend(a: nat, ae: nat, s: Value, x: nat)
      requires Valid() && a < |contents| && x < table.next.Length && !Member(table.rings, x)
      requires |table.rings[a]| == |contents[a]| + 1 && ae == Succ(table.rings[a], 0)
      requires contents[a] == [] ==> lastarray != Some(a)
      modifies `contents, `numElements, table, table.next, table.prev, ind, value
      ensures Threaded() && CacheGood() && contents == old(contents)[a := PutAt(old(contents)[a], 0, (0, s))]
      ensures numElements == old(numElements)[a := |old(contents)[a]| + 1]
      ensures |table.rings[a]| == |contents[a]| + 1 && table.rings[a][1] == x
    {
      hide Linked, Stored, Disjoint, Ascending, MaxIndex;
      assert CountOk(contents[a], maxIndex[a], numElements[a]);
      HeadHolds(a);
      ghost var rings0 := table.rings;
      CreateElement(x, 0, s);
      LinkBefore(a, ae, x, if |contents[a]| > 0 then 1 else 0);
      HeadHolds(a);
      KeepsMembers(rings0, a, 1, x);
    }

    lemma KeepsMembers(rings: seq<seq<nat>>, a: nat, k: nat, x: nat)
      requires a < |rings| && 0 < k <= |rings[a]|
      ensures var ring := InsertAt(rings[a], k, x);
              ring[0] == rings[a][0] && ring[k] == x && forall y :: y in rings[a] ==> y in ring
    {
      var ring := InsertAt(rings[a], k, x);
      forall y | y in rings[a] ensures y in ring {
        var i :| 0 <= i < |rings[a]| && rings[a][i] == y;
        assert ring[if i < k then i else i + 1] == y;
      }
    }
  }

  lemma NothingToPush(n: int)
    ensures SparseEntries.RShift([], n, None) == []
  {
  }

  lemma OneEntry(s: Value, n: int)
    requires s.Some? && n > 0
    ensures SparseEntries.RShift([], n, s) == [(0, s)] == PutAt([], 0, (0, s))
    ensures Ascending([(0, s)]) && CountOk([(0, s)], 0, 1)
  {
    assert Renumber([], n) == [];
  }

  /** `e` with the entries from `i` to `j - 1` renumbered. */
  function Half(e: seq<Entry>, i: nat, j: nat, n: int): seq<Entry>
    requires i <= j <= |e|
  {
    e[..i] + Renumber(e[i..j], n) + e[j..]
  }

  lemma HalfEnds(e: seq<Entry>, i: nat, n: int)
    requires i <= |e|
    ensures Half(e, i, i, n) == e
    ensures Half(e, i, |e|, n) == e[..i] + Renumber(e[i..], n)
  {
    assert e[i..|e|] == e[i..];
  }

  lemma HalfStep(e: seq<Entry>, i: nat, j: nat, n: int)
    requires i <= j < |e|
    ensures |Half(e, i, j, n)| == |e| && Half(e, i, j, n)[j] == e[j]
    ensures Half(e, i, j, n)[j := (e[j].0 + n, e[j].1)] == Half(e, i, j + 1, n)
  {
    var h, h' := Half(e, i, j, n)[j := (e[j].0 + n, e[j].1)], Half(e, i, j + 1, n);
    forall k | 0 <= k < |e| ensures h[k] == h'[k] {
      if i <= k <= j { assert e[i..j + 1][k - i] == e[k]; }
      if i <= k < j { assert e[i..j][k - i] == e[k]; }
    }
  }
}
