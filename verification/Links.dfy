/** Circular doubly linked lists threaded through a table of `struct list_head`s (buddy/list.h).

    A list head or entry is an index into the two tables `next` and `prev`. The abstract state is
    a family of rings: each ring is the sequence of nodes met when following `next` from its head,
    the head itself first. */
module Links {

  /** What `list_del` leaves in the links of a removed entry. */
  const POISON: int := -1

  /** The null pointer. */
  const NIL: int := -2

  function Succ(ring: seq<nat>, k: nat): nat
    requires k < |ring|
  {
    if k + 1 < |ring| then ring[k + 1] else ring[0]
  }

  function Pred(ring: seq<nat>, k: nat): nat
    requires k < |ring|
  {
    if k > 0 then ring[k - 1] else ring[|ring| - 1]
  }

  /** `ring` with `x` put at position `k`. */
  function InsertAt(ring: seq<nat>, k: nat, x: nat): seq<nat>
    requires k <= |ring|
  {
    ring[..k] + [x] + ring[k..]
  }

  ghost predicate Member(rings: seq<seq<nat>>, x: nat) {
    exists r :: 0 <= r < |rings| && x in rings[r]
  }

  /** Every ring has a head, and no node occurs twice in the family. */
  ghost predicate Disjoint(rings: seq<seq<nat>>) {
    && (forall r :: 0 <= r < |rings| ==> rings[r] != [])
    && (forall r, k, r', k' {:trigger rings[r][k], rings[r'][k']} ::
          (0 <= r < |rings| && 0 <= k < |rings[r]| && 0 <= r' < |rings| && 0 <= k' < |rings[r']| &&
           rings[r][k] == rings[r'][k']) ==> r == r' && k == k')
  }

  /** The links describe exactly the family `rings`. */
  ghost predicate Linked(next: seq<int>, prev: seq<int>, rings: seq<seq<nat>>) {
    && |next| == |prev|
    && Disjoint(rings)
    && (forall r, k {:trigger rings[r][k]} :: 0 <= r < |rings| && 0 <= k < |rings[r]| ==> rings[r][k] < |next|)
    && (forall r, k {:trigger next[rings[r][k]]} ::
          0 <= r < |rings| && 0 <= k < |rings[r]| ==> next[rings[r][k]] == Succ(rings[r], k))
    && (forall r, k {:trigger prev[rings[r][k]]} ::
          0 <= r < |rings| && 0 <= k < |rings[r]| ==> prev[rings[r][k]] == Pred(rings[r], k))
  }

  lemma InsertDisjoint(rings: seq<seq<nat>>, r: nat, k: nat, x: nat)
    requires Disjoint(rings) && r < |rings| && k <= |rings[r]| && !Member(rings, x)
    ensures Disjoint(rings[r := InsertAt(rings[r], k, x)])
  {
    var rings' := rings[r := InsertAt(rings[r], k, x)];
    forall s, i {:trigger rings'[s][i]} | 0 <= s < |rings'| && 0 <= i < |rings'[s]| && !(s == r && i == k)
      ensures var o := if s == r && i > k then i - 1 else i;
              o < |rings[s]| && rings'[s][i] == rings[s][o] && rings[s][o] != x
    {
    }
  }

  /** The four stores of `__list_add` between two neighbours insert the new node there and leave
      every other ring alone. */
  lemma InsertLinked(next: seq<int>, prev: seq<int>, rings: seq<seq<nat>>, r: nat, k: nat, x: nat)
    requires Linked(next, prev, rings)
    requires r < |rings| && k < |rings[r]| && x < |next| && !Member(rings, x)
    ensures var p, n := rings[r][k], Succ(rings[r], k);
            Linked(next[x := n][p := x], prev[n := x][x := p], rings[r := InsertAt(rings[r], k + 1, x)])
  {
    var ring := rings[r];
    var p, n := ring[k], Succ(ring, k);
    var next', prev' := next[x := n][p := x], prev[n := x][x := p];
    var rings' := rings[r := InsertAt(ring, k + 1, x)];
    InsertDisjoint(rings, r, k + 1, x);
    forall s, i {:trigger rings'[s][i]} | 0 <= s < |rings'| && 0 <= i < |rings'[s]|
      ensures rings'[s][i] < |next'|
      ensures next'[rings'[s][i]] == Succ(rings'[s], i)
      ensures prev'[rings'[s][i]] == Pred(rings'[s], i)
    {
      if s != r {
        assert rings'[s] == rings[s];
        assert rings[s][i] != x && rings[s][i] != p && rings[s][i] != n;
        assert next[rings[s][i]] == Succ(rings[s], i);
      } else if i == k + 1 {
        assert rings'[s][i] == x;
      } else {
        var o := if i > k + 1 then i - 1 else i;
        assert rings'[s][i] == rings[s][o];
        assert next[rings[s][o]] == Succ(rings[s], o);
        assert prev[rings[s][o]] == Pred(rings[s], o);
        var m := if k + 1 < |ring| then k + 1 else 0;
        assert n == rings[r][m];
      }
    }
  }

  /** `ring` without the nodes at positions `i` to `j - 1`. */
  function Cut(ring: seq<nat>, i: nat, j: nat): seq<nat>
    requires i <= j <= |ring|
  {
    ring[..i] + ring[j..]
  }

  lemma CutDisjoint(rings: seq<seq<nat>>, r: nat, i: nat, j: nat)
    requires Disjoint(rings) && r < |rings| && 0 < i <= j <= |rings[r]|
    ensures Disjoint(rings[r := Cut(rings[r], i, j)])
    ensures forall k :: i <= k < j ==> !Member(rings[r := Cut(rings[r], i, j)], rings[r][k])
  {
    var rings' := rings[r := Cut(rings[r], i, j)];
    forall s, m {:trigger rings'[s][m]} | 0 <= s < |rings'| && 0 <= m < |rings'[s]|
      ensures var o := if s == r && m >= i then m + (j - i) else m;
              o < |rings[s]| && rings'[s][m] == rings[s][o]
              && forall k :: i <= k < j ==> rings'[s][m] != rings[r][k]
    {
      var o := if s == r && m >= i then m + (j - i) else m;
      assert rings'[s][m] == rings[s][o];
    }
  }

  /** Two stores take a stretch of entries out of a ring and leave every other ring alone. */
  lemma CutLinked(next: seq<int>, prev: seq<int>, rings: seq<seq<nat>>, r: nat, i: nat, j: nat)
    requires Linked(next, prev, rings)
    requires r < |rings| && 0 < i <= j <= |rings[r]|
    ensures var p, n := rings[r][i - 1], rings[r][if j < |rings[r]| then j else 0];
            Linked(next[p := n], prev[n := p], rings[r := Cut(rings[r], i, j)])
  {
    var ring := rings[r];
    var m := if j < |ring| then j else 0;
    var p, n := ring[i - 1], ring[m];
    var next', prev' := next[p := n], prev[n := p];
    var rings' := rings[r := Cut(ring, i, j)];
    CutDisjoint(rings, r, i, j);
    forall s, k {:trigger rings'[s][k]} | 0 <= s < |rings'| && 0 <= k < |rings'[s]|
      ensures rings'[s][k] < |next'|
      ensures next'[rings'[s][k]] == Succ(rings'[s], k)
      ensures prev'[rings'[s][k]] == Pred(rings'[s], k)
    {
      assert n == rings[r][m] && p == rings[r][i - 1];
      var o := if s == r && k >= i then k + (j - i) else k;
      assert rings'[s][k] == rings[s][o];
      assert next[rings[s][o]] == Succ(rings[s], o);
      assert prev[rings[s][o]] == Pred(rings[s], o);
    }
  }

  /** A node outside the family that points to itself is one more ring. */
  lemma InitLinked(next: seq<int>, prev: seq<int>, rings: seq<seq<nat>>, head: nat)
    requires Linked(next, prev, rings) && head < |next| && !Member(rings, head)
    ensures Linked(next[head := head], prev[head := head], rings + [[head]])
  {
    var rings' := rings + [[head]];
    assert forall r, k {:trigger rings'[r][k]} :: 0 <= r < |rings| && 0 <= k < |rings[r]| ==>
        rings'[r][k] == rings[r][k] && rings[r][k] != head;
  }

  /** The links of a node outside the family do not matter. */
  lemma OutsideLinked(next: seq<int>, prev: seq<int>, rings: seq<seq<nat>>, x: nat, a: int, b: int)
    requires Linked(next, prev, rings) && x < |next| && !Member(rings, x)
    ensures Linked(next[x := a], prev[x := b], rings)
  {
    assert forall r, k {:trigger rings[r][k]} :: 0 <= r < |rings| && 0 <= k < |rings[r]| ==> rings[r][k] != x;
  }

  lemma InsertMember(rings: seq<seq<nat>>, r: nat, k: nat, x: nat, y: nat)
    requires r < |rings| && k <= |rings[r]|
    ensures Member(rings[r := InsertAt(rings[r], k, x)], y) ==> y == x || Member(rings, y)
  {
  }

  lemma CutMember(rings: seq<seq<nat>>, r: nat, i: nat, j: nat, y: nat)
    requires r < |rings| && i <= j <= |rings[r]|
    ensures Member(rings[r := Cut(rings[r], i, j)], y) ==> Member(rings, y)
  {
  }

  /** A table of list nodes. */
  class ListTable {
    const next: array<int>
    const prev: array<int>
    ghost var rings: seq<seq<nat>>

    ghost predicate Valid()
      reads this, next, prev
    {
      next != prev && Linked(next[..], prev[..], rings)
    }

    constructor (size: nat)
      ensures Valid() && fresh(next) && fresh(prev)
      ensures rings == [] && next.Length == size
    {
      next := new int[size];
      prev := new int[size];
      rings := [];
    }

    lemma HaveHeads()
      requires Valid()
      ensures forall r :: 0 <= r < |rings| ==> rings[r] != []
    {
    }

    /** `INIT_LIST_HEAD`: a node outside every ring becomes an empty list. */
    method InitListHead(head: nat)
      requires Valid() && head < next.Length && !Member(rings, head)
      modifies this, next, prev
      ensures Valid() && rings == old(rings) + [[head]]
    {
      InitLinked(next[..], prev[..], rings, head);
      hide Linked, Member;
      next[head] := head;
      prev[head] := head;
      rings := rings + [[head]];
      assert next[..] == old(next[..])[head := head] && prev[..] == old(prev[..])[head := head];
    }

    /** `__list_add`: link `x` between the neighbours at positions `k` and `k + 1` of ring `r`. */
    method InsertBetween(x: nat, p: nat, n: nat, ghost r: nat, ghost k: nat)
      requires Valid() && x < next.Length && !Member(rings, x)
      requires r < |rings| && k < |rings[r]| && p == rings[r][k] && n == Succ(rings[r], k)
      modifies this, next, prev
      ensures Valid() && rings == old(rings)[r := InsertAt(old(rings)[r], k + 1, x)]
    {
      InsertLinked(next[..], prev[..], rings, r, k, x);
      var m := if k + 1 < |rings[r]| then k + 1 else 0;
      assert n == rings[r][m];
      prev[n] := x;
      next[x] := n;
      prev[x] := p;
      next[p] := x;
      rings := rings[r := InsertAt(rings[r], k + 1, x)];
      assert next[..] == old(next[..])[x := n][p := x];
      assert prev[..] == old(prev[..])[n := x][x := p];
    }

    /** `list_add`: push `x` right after the head of ring `r`. */
    method ListAdd(x: nat, head: nat, ghost r: nat)
      requires Valid() && x < next.Length && !Member(rings, x)
      requires r < |rings| && head == rings[r][0]
      modifies this, next, prev
      ensures Valid() && rings == old(rings)[r := InsertAt(old(rings)[r], 1, x)]
    {
      assert next[rings[r][0]] == Succ(rings[r], 0);
      var n := next[head];
      InsertBetween(x, head, n, r, 0);
    }

    /** `list_add_tail`: put `x` just before the node at position `k` of ring `r`; before the head
        means at the end of the list. */
    method ListAddTail(x: nat, at: nat, ghost r: nat, ghost k: nat)
      requires Valid() && x < next.Length && !Member(rings, x)
      requires r < |rings| && k < |rings[r]| && at == rings[r][k]
      modifies this, next, prev
      ensures Valid()
      ensures rings == old(rings)[r := InsertAt(old(rings)[r], if k == 0 then |old(rings)[r]| else k, x)]
    {
      assert prev[rings[r][k]] == Pred(rings[r], k);
      var p := prev[at];
      ghost var m := if k == 0 then |rings[r]| - 1 else k - 1;
      assert rings[r][m] == p && Succ(rings[r], m) == at;
      InsertBetween(x, p, at, r, m);
    }

    /** `__list_del`: make the neighbours of the entries at positions `i` to `j - 1` of ring `r` point
        to each other. */
    method Unlink(p: nat, n: nat, ghost r: nat, ghost i: nat, ghost j: nat)
      requires Valid() && r < |rings| && 0 < i <= j <= |rings[r]|
      requires p == rings[r][i - 1] && n == rings[r][if j < |rings[r]| then j else 0]
      modifies this, next, prev
      ensures Valid() && rings == old(rings)[r := Cut(old(rings)[r], i, j)]
      ensures next[..] == old(next[..])[p := n] && prev[..] == old(prev[..])[n := p]
    {
      CutLinked(next[..], prev[..], rings, r, i, j);
      prev[n] := p;
      next[p] := n;
      rings := rings[r := Cut(rings[r], i, j)];
      assert next[..] == old(next[..])[p := n];
      assert prev[..] == old(prev[..])[n := p];
    }

    /** A node that is in no list points nowhere. */
    method EndChain(x: nat)
      requires Valid() && x < next.Length && !Member(rings, x)
      modifies next
      ensures Valid() && next[..] == old(next[..])[x := NIL]
    {
      OutsideLinked(next[..], prev[..], rings, x, NIL, prev[x]);
      next[x] := NIL;
      assert next[..] == old(next[..])[x := NIL];
      assert prev[..] == prev[..][x := prev[x]];
    }

    /** `list_del`: unlink the entry at position `k` of ring `r` and poison its links. */
    method ListDel(x: nat, ghost r: nat, ghost k: nat)
      requires Valid() && r < |rings| && 0 < k < |rings[r]| && x == rings[r][k]
      modifies this, next, prev
      ensures Valid() && rings == old(rings)[r := Cut(old(rings)[r], k, k + 1)]
      ensures !Member(rings, x)
    {
      assert prev[rings[r][k]] == Pred(rings[r], k) && next[rings[r][k]] == Succ(rings[r], k);
      CutDisjoint(rings, r, k, k + 1);
      Unlink(prev[x], next[x], r, k, k + 1);
      OutsideLinked(next[..], prev[..], rings, x, POISON, POISON);
      label unlinked:
      next[x] := POISON;
      prev[x] := POISON;
      assert next[..] == old@unlinked(next[..])[x := POISON];
      assert prev[..] == old@unlinked(prev[..])[x := POISON];
    }

    /** `list_empty`. */
    method ListEmpty(head: nat, ghost r: nat) returns (b: bool)
      requires Valid() && r < |rings| && head == rings[r][0]
      ensures b <==> |rings[r]| == 1
    {
      assert next[rings[r][0]] == Succ(rings[r], 0);
      b := next[head] == head;
      assert |rings[r]| > 1 ==> rings[r][1] != rings[r][0];
    }
  }
}
