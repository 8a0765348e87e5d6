/** How a page table and a family of rings represent a division of memory, and what the updates of
    buddy/buddy.c do to that representation. All on values; Buddy.dfy does it in place. */
module BuddyState {
  import opened Powers
  import opened Links
  import opened BuddyTree
  import opened BuddySpec

  /** List node of `free_area[o]`: the heads come after the pages. */
  function HeadNode(M: nat, o: nat): nat {
    Pow2(M) + 1 + o
  }

  /** The list of order `o` holds the free blocks of order `o`, by increasing address. */
  ghost predicate ListsShow(M: nat, t: Tree, rings: seq<seq<nat>>)
    requires Fits(t, M)
  {
    |rings| == M + 1 &&
    forall o :: 0 <= o <= M ==> rings[o] == [HeadNode(M, o)] + FreeList(t, 0, M, o)
  }

  /** The record of a page is right where it matters: `is_free` is 0 exactly on allocated heads, and
      `block_size` is current on every head. */
  ghost predicate PageRecorded(M: nat, t: Tree, free: seq<bool>, size: seq<int>, x: nat)
    requires Fits(t, M) && x < Pow2(M) < |free| == |size|
  {
    match PageAt(t, 0, M, x)
    case Interior => free[x]
    case Head(kind, k) => free[x] == (kind != Live) && size[x] == k
  }

  /** All pages are recorded. The table has one entry more than there are pages: whatever memory
      follows it. */
  ghost predicate Recorded(M: nat, t: Tree, free: seq<bool>, size: seq<int>)
    requires Fits(t, M)
  {
    && Pow2(M) + 1 == |free| == |size|
    && forall x :: 0 <= x < Pow2(M) ==> PageRecorded(M, t, free, size, x)
  }

  /** What follows the page table does not read as a free block of the size of memory. */
  ghost predicate TableEndHarmless(M: nat, free: seq<bool>, size: seq<int>)
    requires Pow2(M) + 1 == |free| == |size|
  {
    !(free[Pow2(M)] && size[Pow2(M)] == M)
  }

  lemma {:induction false} MemberIsFree(M: nat, t: Tree, rings: seq<seq<nat>>, x: nat)
    requires Fits(t, M) && ListsShow(M, t, rings) && x < Pow2(M) && Member(rings, x)
    ensures PageAt(t, 0, M, x).Head? && PageAt(t, 0, M, x).kind == Free
  {
    var o :| 0 <= o < |rings| && x in rings[o];
    assert x in FreeList(t, 0, M, o);
    FreeListIsHeads(t, 0, M, x, o);
  }

  // ---------- Splitting ----------

  lemma {:induction false} FirstHasNoBefore(M: nat, t: Tree, p: nat, o: nat)
    requires Fits(t, M) && HasNode(t, 0, M, p, o) && Sub(t, 0, M, p, o) == Leaf(Free)
    requires FreeList(t, 0, M, o) != [] && p == FreeList(t, 0, M, o)[0]
    ensures Before(t, 0, M, p, o, o) == []
  {
    FreeListSplit(t, 0, M, p, o, o);
    BeforeAfterRange(t, 0, M, p, o, o);
    var before := Before(t, 0, M, p, o, o);
    assert forall j | 0 <= j < |before| :: before[j] in before && before[j] < p;
  }

  /** The lists after taking the first block `p` off the list of order `o`. */
  function TakeFirst(rings: seq<seq<nat>>, o: nat): seq<seq<nat>>
    requires o < |rings| && 1 < |rings[o]|
  {
    rings[o := Cut(rings[o], 1, 2)]
  }

  function Push(rings: seq<seq<nat>>, o: nat, x: nat): seq<seq<nat>>
    requires o < |rings| && 1 <= |rings[o]|
  {
    rings[o := InsertAt(rings[o], 1, x)]
  }

  lemma {:induction false} SplitLists(M: nat, t: Tree, rings: seq<seq<nat>>, p: nat, q: nat, o: nat)
    requires Fits(t, M) && ListsShow(M, t, rings) && 0 < o <= M
    requires FreeList(t, 0, M, o) != [] && FreeList(t, 0, M, o - 1) == []
    requires p == FreeList(t, 0, M, o)[0] && q == p + Pow2(o - 1)
    requires HasNode(t, 0, M, p, o) && Sub(t, 0, M, p, o) == Leaf(Free)
    ensures ListsShow(M, Put(t, 0, M, p, o, Node(Leaf(Free), Leaf(Free))),
                      Push(Push(TakeFirst(rings, o), o - 1, q), o - 1, p))
  {
    hide FreeList, Before, After, Put, Sub, HasNode;
    var rings' := Push(Push(TakeFirst(rings, o), o - 1, q), o - 1, p);
    var t' := Put(t, 0, M, p, o, Node(Leaf(Free), Leaf(Free)));
    forall j | 0 <= j <= M ensures rings'[j] == [HeadNode(M, j)] + FreeList(t', 0, M, j) {
      SplitFreeList(M, t, p, q, o, j);
      if j == o - 1 {
        assert rings[j] == [HeadNode(M, j)];
        PushTwice(HeadNode(M, j), p, q);
      } else if j == o {
        PopOne(HeadNode(M, j), p, After(t, 0, M, p, o, o));
      } else {
        assert rings'[j] == rings[j];
      }
    }
  }

  lemma PushTwice(head: nat, p: nat, q: nat)
    ensures InsertAt(InsertAt([head], 1, q), 1, p) == [head] + [p, q]
  {
  }

  lemma PopOne(head: nat, p: nat, rest: seq<nat>)
    ensures Cut([head] + ([p] + rest), 1, 2) == [head] + rest
  {
  }

  lemma {:induction false} SplitFreeList(M: nat, t: Tree, p: nat, q: nat, o: nat, j: nat)
    requires Fits(t, M) && 0 < o <= M
    requires FreeList(t, 0, M, o) != [] && FreeList(t, 0, M, o - 1) == []
    requires p == FreeList(t, 0, M, o)[0] && q == p + Pow2(o - 1)
    requires HasNode(t, 0, M, p, o) && Sub(t, 0, M, p, o) == Leaf(Free)
    ensures FreeList(t, 0, M, o) == [p] + After(t, 0, M, p, o, o)
    ensures FreeList(Put(t, 0, M, p, o, Node(Leaf(Free), Leaf(Free))), 0, M, j)
         == if j == o - 1 then [p, q] else if j == o then After(t, 0, M, p, o, o) else FreeList(t, 0, M, j)
  {
    var n := Node(Leaf(Free), Leaf(Free));
    assert FreeList(n, p, o, j) == if j == o - 1 then [p, q] else [] by {
      assert FreeList(n.left, p, o - 1, j) == if j == o - 1 then [p] else [];
      assert FreeList(n.right, q, o - 1, j) == if j == o - 1 then [q] else [];
    }
    assert FreeList(Leaf(Free), p, o, j) == if j == o then [p] else [];
    assert FreeList(Leaf(Free), p, o, o) == [p];
    hide FreeList, Before, After, Put, Sub, HasNode;
    FirstHasNoBefore(M, t, p, o);
    FreeListSplit(t, 0, M, p, o, o);
    FreeListSplit(t, 0, M, p, o, j);
    PutFreeList(t, 0, M, p, o, n, j);
    var a, c := Before(t, 0, M, p, o, j), After(t, 0, M, p, o, j);
    assert a + [] + c == a + c;
    if j == o - 1 {
      assert a == [] && c == [];
    }
  }

  lemma {:induction false} SplitRecorded(M: nat, t: Tree, free: seq<bool>, size: seq<int>, p: nat, q: nat, o: nat)
    requires Fits(t, M) && Recorded(M, t, free, size) && 0 < o <= M
    requires HasNode(t, 0, M, p, o) && Sub(t, 0, M, p, o) == Leaf(Free) && q == p + Pow2(o - 1)
    requires p < q < Pow2(M)
    ensures Recorded(M, Put(t, 0, M, p, o, Node(Leaf(Free), Leaf(Free))), free, size[p := o - 1][q := o - 1])
  {
    var n := Node(Leaf(Free), Leaf(Free));
    var t', size' := Put(t, 0, M, p, o, n), size[p := o - 1][q := o - 1];
    forall x | 0 <= x < Pow2(M) ensures PageRecorded(M, t', free, size', x) {
      assert PageRecorded(M, t, free, size, x);
      PutPageAt(t, 0, M, p, o, n, x);
      if p <= x < p + Pow2(o) { SubPageAt(t, 0, M, p, o, x); }
    }
  }

  // ---------- Merging ----------

  /** A strictly increasing sequence can be cut at an element in one way. */
  lemma CutUnique(s: seq<nat>, a: seq<nat>, c: seq<nat>, a': seq<nat>, c': seq<nat>, q: nat)
    requires StrictlyIncreasing(s) && s == a + [q] + c == a' + [q] + c'
    ensures a == a' && c == c'
  {
    assert s[|a|] == q == s[|a'|];
    assert |a| == |a'|;
    assert a == s[..|a|] && a' == s[..|a|];
    assert c == s[|a| + 1..] && c' == s[|a| + 1..];
  }

  lemma {:induction false} BuddyPosition(M: nat, t: Tree, rings: seq<seq<nat>>, q: nat, k: nat)
    requires Fits(t, M) && ListsShow(M, t, rings) && k <= M
    requires HasNode(t, 0, M, q, k) && Sub(t, 0, M, q, k) == Leaf(Free)
    ensures var m := 1 + |Before(t, 0, M, q, k, k)|;
            m < |rings[k]| && rings[k][m] == q
            && Cut(rings[k], m, m + 1) == [HeadNode(M, k)] + (Before(t, 0, M, q, k, k) + After(t, 0, M, q, k, k))
  {
    FreeListSplit(t, 0, M, q, k, k);
  }

  /** Two buddies, `p` pending and `q` free, at order `k`; `u` is the first of the two. */
  ghost predicate Mergeable(M: nat, t: Tree, p: nat, q: nat, u: nat, k: nat)
    requires Fits(t, M)
  {
    && k < M && q < Pow2(M) && p < Pow2(M) && AreHalves(t, 0, M, p, q, u, k)
    && Sub(t, 0, M, p, k) == Leaf(Pending) && Sub(t, 0, M, q, k) == Leaf(Free)
    && SettledBut(t, 0, M, u, k + 1)
  }

  /** Finding the page in buddy position free and of the right order means the two can be merged. */
  lemma {:induction false} BuddiesMerge(M: nat, t: Tree, p: nat, k: nat)
    requires Fits(t, M) && k < M && HasNode(t, 0, M, p, k) && Sub(t, 0, M, p, k) == Leaf(Pending)
    requires SettledBut(t, 0, M, p, k)
    ensures var q := FlipBit(p, k);
            && q < Pow2(M) && PageAt(t, 0, M, q).Head? && PageAt(t, 0, M, q).kind != Pending
            && (PageAt(t, 0, M, q) == Head(Free, k) <==> Sibling(t, 0, M, p, k) == Leaf(Free))
            && (PageAt(t, 0, M, q) == Head(Free, k) ==> Mergeable(M, t, p, q, if q < p then q else p, k))
  {
    ZeroAligned(M);
    BuddyIsHead(t, 0, M, p, k);
    BuddyRegion(t, 0, M, p, k);
    SettledButWider(t, 0, M, p, k);
    SettledSibling(t, 0, M, p, k);
    var q := FlipBit(p, k);
    NodeRange(t, 0, M, p, k);
    SubPageAt(t, 0, M, q, k, q);
    SettledHead(Sub(t, 0, M, q, k), q, k);
  }

  lemma {:induction false} SettledSibling(t: Tree, b: nat, h: nat, p: nat, k: nat)
    requires Fits(t, h) && HasNode(t, b, h, p, k) && k < h && SettledBut(t, b, h, p, k)
    ensures Settled(Sibling(t, b, h, p, k))
    decreases t
  {
    if h - 1 > k {
      if p < b + Pow2(h - 1) {
        SettledSibling(t.left, b, h - 1, p, k);
      } else {
        SettledSibling(t.right, b + Pow2(h - 1), h - 1, p, k);
      }
    }
  }

  lemma {:induction false} SettledHead(t: Tree, b: nat, h: nat)
    requires Fits(t, h) && Settled(t)
    ensures PageAt(t, b, h, b).Head? && PageAt(t, b, h, b).kind != Pending
  {
    if t.Node? { SettledHead(t.left, b, h - 1); }
  }

  lemma {:induction false} MergeLists(M: nat, t: Tree, rings: seq<seq<nat>>, p: nat, q: nat, u: nat, k: nat)
    requires Fits(t, M) && ListsShow(M, t, rings) && Mergeable(M, t, p, q, u, k)
    ensures var m := 1 + |Before(t, 0, M, q, k, k)|;
            && m < |rings[k]| && rings[k][m] == q
            && ListsShow(M, Put(t, 0, M, u, k + 1, Leaf(Pending)), rings[k := Cut(rings[k], m, m + 1)])
  {
    var t', m := Put(t, 0, M, u, k + 1, Leaf(Pending)), 1 + |Before(t, 0, M, q, k, k)|;
    BuddyPosition(M, t, rings, q, k);
    var rings' := rings[k := Cut(rings[k], m, m + 1)];
    forall o | 0 <= o <= M ensures rings'[o] == [HeadNode(M, o)] + FreeList(t', 0, M, o) {
      MergeFreeList(M, t, p, q, u, k, o);
    }
  }

  lemma MergeFreeList(M: nat, t: Tree, p: nat, q: nat, u: nat, k: nat, o: nat)
    requires Fits(t, M) && Mergeable(M, t, p, q, u, k)
    ensures FreeList(Put(t, 0, M, u, k + 1, Leaf(Pending)), 0, M, o)
         == if o == k then Before(t, 0, M, q, k, k) + After(t, 0, M, q, k, k) else FreeList(t, 0, M, o)
  {
    assert FreeList(Sub(t, 0, M, u, k + 1), u, k + 1, o) == if o == k then [q] else [] by {
      var s := Sub(t, 0, M, u, k + 1);
      assert FreeList(s.left, u, k, o) + FreeList(s.right, u + Pow2(k), k, o) == if o == k then [q] else [];
    }
    assert FreeList(Leaf(Pending), u, k + 1, o) == [];
    assert FreeList(Leaf(Free), q, k, k) == [q];
    hide FreeList, Before, After, Put, Sub, HasNode;
    FreeListSplit(t, 0, M, u, k + 1, o);
    PutFreeList(t, 0, M, u, k + 1, Leaf(Pending), o);
    var a, c := Before(t, 0, M, u, k + 1, o), After(t, 0, M, u, k + 1, o);
    if o == k {
      assert FreeList(t, 0, M, k) == a + [q] + c;
      FreeListSplit(t, 0, M, q, k, k);
      FreeListSorted(t, 0, M, k);
      CutUnique(FreeList(t, 0, M, k), a, c, Before(t, 0, M, q, k, k), After(t, 0, M, q, k, k), q);
    }
    assert a + [] + c == a + c;
  }

  lemma {:induction false} MergeTree(M: nat, t: Tree, p: nat, q: nat, u: nat, k: nat)
    requires Fits(t, M) && Coalesced(t) && Mergeable(M, t, p, q, u, k)
    ensures var t' := Put(t, 0, M, u, k + 1, Leaf(Pending));
            Coalesced(t') && Coalesce(t') == Coalesce(t) && SettledBut(t', 0, M, u, k + 1)
            && PageAt(t', 0, M, u) == Head(Pending, k + 1)
  {
    PutCoalesced(t, 0, M, u, k + 1, Leaf(Pending));
    CoalescePut(t, 0, M, u, k + 1, Leaf(Pending));
    PutSettled(t, 0, M, u, k + 1, Leaf(Pending));
    PutPageAt(t, 0, M, u, k + 1, Leaf(Pending), u);
  }

  lemma {:induction false} MergeRecorded(M: nat, t: Tree, free: seq<bool>, size: seq<int>, p: nat, q: nat,
      u: nat, k: nat)
    requires Fits(t, M) && Recorded(M, t, free, size) && Mergeable(M, t, p, q, u, k)
    ensures Recorded(M, Put(t, 0, M, u, k + 1, Leaf(Pending)), free, size[u := k + 1])
  {
    var t', size' := Put(t, 0, M, u, k + 1, Leaf(Pending)), size[u := k + 1];
    forall x | 0 <= x < Pow2(M) ensures PageRecorded(M, t', free, size', x) {
      assert PageRecorded(M, t, free, size, x);
      PutPageAt(t, 0, M, u, k + 1, Leaf(Pending), x);
      if u <= x < u + Pow2(k + 1) { SubPageAt(t, 0, M, u, k + 1, x); }
    }
  }

  // ---------- A block changes kind ----------

  lemma {:induction false} LeafRecorded(M: nat, t: Tree, free: seq<bool>, size: seq<int>, p: nat, k: nat, kind: Kind)
    requires Fits(t, M) && Recorded(M, t, free, size) && p < Pow2(M)
    requires HasNode(t, 0, M, p, k) && Sub(t, 0, M, p, k).Leaf?
    ensures Recorded(M, Put(t, 0, M, p, k, Leaf(kind)), free[p := kind != Live], size)
  {
    var t', free' := Put(t, 0, M, p, k, Leaf(kind)), free[p := kind != Live];
    NodeRange(t, 0, M, p, k);
    forall x | 0 <= x < Pow2(M) ensures PageRecorded(M, t', free', size, x) {
      assert PageRecorded(M, t, free, size, x);
      PutPageAt(t, 0, M, p, k, Leaf(kind), x);
      if p <= x < p + Pow2(k) { SubPageAt(t, 0, M, p, k, x); }
    }
  }

  /** The free lists once the first block of order `k` is no longer free. */
  lemma {:induction false} TakeFreeList(M: nat, t: Tree, p: nat, k: nat, kind: Kind, j: nat)
    requires Fits(t, M) && k <= M && kind != Free && FreeList(t, 0, M, k) != [] && p == FreeList(t, 0, M, k)[0]
    requires HasNode(t, 0, M, p, k) && Sub(t, 0, M, p, k) == Leaf(Free)
    ensures FreeList(t, 0, M, k) == [p] + After(t, 0, M, p, k, k)
    ensures FreeList(Put(t, 0, M, p, k, Leaf(kind)), 0, M, j)
         == if j == k then After(t, 0, M, p, k, k) else FreeList(t, 0, M, j)
  {
    assert FreeList(Leaf(Free), p, k, k) == [p];
    hide FreeList, Before, After, Put, Sub, HasNode;
    FirstHasNoBefore(M, t, p, k);
    FreeListSplit(t, 0, M, p, k, k);
    LeafFreeList(M, t, p, k, kind, j);
  }

  /** Taking the first block of order `k` off its list, whatever it becomes. */
  lemma {:induction false} TakeLists(M: nat, t: Tree, rings: seq<seq<nat>>, p: nat, k: nat, kind: Kind)
    requires Fits(t, M) && ListsShow(M, t, rings) && k <= M && kind != Free
    requires FreeList(t, 0, M, k) != [] && p == FreeList(t, 0, M, k)[0]
    requires HasNode(t, 0, M, p, k) && Sub(t, 0, M, p, k) == Leaf(Free)
    ensures ListsShow(M, Put(t, 0, M, p, k, Leaf(kind)), TakeFirst(rings, k))
  {
    hide FreeList, After, Put, Sub, HasNode, Cut;
    PopOne(HeadNode(M, k), p, After(t, 0, M, p, k, k));
    forall j | 0 <= j <= M
      ensures TakeFirst(rings, k)[j] == [HeadNode(M, j)] + FreeList(Put(t, 0, M, p, k, Leaf(kind)), 0, M, j)
    {
      TakeFreeList(M, t, p, k, kind, j);
    }
  }

  /** A block that becomes free or stops being free changes its own list only. */
  lemma {:induction false} LeafFreeList(M: nat, t: Tree, p: nat, k: nat, kind: Kind, j: nat)
    requires Fits(t, M) && HasNode(t, 0, M, p, k) && Sub(t, 0, M, p, k).Leaf?
    ensures FreeList(Put(t, 0, M, p, k, Leaf(kind)), 0, M, j)
         == if j != k then FreeList(t, 0, M, j)
            else if kind == Free then Before(t, 0, M, p, k, k) + ([p] + After(t, 0, M, p, k, k))
            else Before(t, 0, M, p, k, k) + After(t, 0, M, p, k, k)
  {
    assert FreeList(Sub(t, 0, M, p, k), p, k, j) == if j == k && Sub(t, 0, M, p, k) == Leaf(Free) then [p] else [];
    assert FreeList(Leaf(kind), p, k, j) == if j == k && kind == Free then [p] else [];
    hide FreeList, Before, After, Put, Sub, HasNode;
    FreeListSplit(t, 0, M, p, k, j);
    PutFreeList(t, 0, M, p, k, Leaf(kind), j);
    Regroup(Before(t, 0, M, p, k, j), p, After(t, 0, M, p, k, j));
  }

  lemma Regroup(a: seq<nat>, p: nat, c: seq<nat>)
    ensures a + [] + c == a + c
    ensures a + [p] + c == a + ([p] + c)
  {
  }

  /** A block that is on no list and not going to be on one. */
  lemma {:induction false} OffListLists(M: nat, t: Tree, rings: seq<seq<nat>>, p: nat, k: nat, kind: Kind)
    requires Fits(t, M) && ListsShow(M, t, rings) && kind != Free
    requires HasNode(t, 0, M, p, k) && Sub(t, 0, M, p, k).Leaf? && Sub(t, 0, M, p, k).kind != Free
    ensures ListsShow(M, Put(t, 0, M, p, k, Leaf(kind)), rings)
  {
    forall j | 0 <= j <= M ensures rings[j] == [HeadNode(M, j)] + FreeList(Put(t, 0, M, p, k, Leaf(kind)), 0, M, j) {
      LeafFreeList(M, t, p, k, kind, j);
      FreeListSplit(t, 0, M, p, k, k);
    }
  }

  /** The position the insertion loop of `buddy_free` stops at: before the first block with a greater
      index, or at the end. */
  ghost predicate InsertionPoint(list: seq<nat>, x: nat, i: nat) {
    && i <= |list|
    && (forall j :: 0 <= j < i ==> list[j] < x)
    && (i < |list| ==> x < list[i])
  }

  lemma {:induction false} InsertLists(M: nat, t: Tree, rings: seq<seq<nat>>, p: nat, k: nat, i: nat)
    requires Fits(t, M) && ListsShow(M, t, rings) && k <= M
    requires HasNode(t, 0, M, p, k) && Sub(t, 0, M, p, k) == Leaf(Pending)
    requires InsertionPoint(FreeList(t, 0, M, k), p, i)
    ensures 1 + i <= |rings[k]|
    ensures ListsShow(M, Put(t, 0, M, p, k, Leaf(Free)), rings[k := InsertAt(rings[k], 1 + i, p)])
  {
    var rings' := rings[k := InsertAt(rings[k], 1 + i, p)];
    forall j | 0 <= j <= M ensures rings'[j] == [HeadNode(M, j)] + FreeList(Put(t, 0, M, p, k, Leaf(Free)), 0, M, j) {
      LeafFreeList(M, t, p, k, Free, j);
      if j == k {
        var a, c := Before(t, 0, M, p, k, k), After(t, 0, M, p, k, k);
        LeafFreeList(M, t, p, k, Pending, k);
        hide FreeList, Before, After, Put, Sub, HasNode;
        PutSub(t, 0, M, p, k);
        BeforeAfterRange(t, 0, M, p, k, k);
        CutAt(a, c, p, i);
        PushAt(HeadNode(M, k), a, c, p);
      }
    }
  }

  lemma PushAt(head: nat, a: seq<nat>, c: seq<nat>, p: nat)
    ensures InsertAt([head] + (a + c), 1 + |a|, p) == [head] + (a + ([p] + c))
  {
  }

  lemma CutAt(a: seq<nat>, c: seq<nat>, x: nat, i: nat)
    requires InsertionPoint(a + c, x, i)
    requires forall y :: y in a ==> y < x
    requires forall y :: y in c ==> x < y
    ensures i == |a|
  {
    var s := a + c;
    forall j | 0 <= j < |a| ensures s[j] < x { assert s[j] == a[j] && a[j] in a; }
    forall j | |a| <= j < |s| ensures x < s[j] { assert s[j] == c[j - |a|] && c[j - |a|] in c; }
    var d := |a|;
    assert d == |s| || x < s[d];
  }

  /** Freeing a pending block that cannot be merged any further finishes the release. */
  lemma {:induction false} SettleTree(M: nat, t: Tree, p: nat, k: nat)
    requires Fits(t, M) && Coalesced(t) && HasNode(t, 0, M, p, k) && Sub(t, 0, M, p, k) == Leaf(Pending)
    requires SettledBut(t, 0, M, p, k)
    requires k < M ==> Sibling(t, 0, M, p, k) != Leaf(Free)
    ensures var t' := Put(t, 0, M, p, k, Leaf(Free));
            Coalesced(t') && Settled(t') && t' == Coalesce(t)
  {
    PutCoalesced(t, 0, M, p, k, Leaf(Free));
    PutSettled(t, 0, M, p, k, Leaf(Free));
    CoalescePut(t, 0, M, p, k, Leaf(Free));
    CoalescedIsFixed(Put(t, 0, M, p, k, Leaf(Free)));
  }

  /** Marking the block pending first makes no difference to the outcome. */
  lemma {:induction false} PendTree(M: nat, t: Tree, p: nat, k: nat)
    requires Good(t, M) && HasNode(t, 0, M, p, k) && Sub(t, 0, M, p, k) == Leaf(Live)
    ensures var t' := Put(t, 0, M, p, k, Leaf(Pending));
            Coalesced(t') && SettledBut(t', 0, M, p, k)
            && Coalesce(t') == Coalesce(Put(t, 0, M, p, k, Leaf(Free)))
  {
    var t' := Put(t, 0, M, p, k, Leaf(Pending));
    PutCoalesced(t, 0, M, p, k, Leaf(Pending));
    SettledSettlesBut(t, 0, M, p, k);
    PutSettled(t, 0, M, p, k, Leaf(Pending));
    CoalescePut(t', 0, M, p, k, Leaf(Free));
    PutPut(t, 0, M, p, k, Leaf(Pending), p, k, Leaf(Free));
  }

  /** The block that is all of memory has its buddy just past the page table; no other block does. */
  lemma {:induction false} BuddyPastTable(M: nat, t: Tree, p: nat, k: nat)
    requires Fits(t, M) && HasNode(t, 0, M, p, k)
    ensures FlipBit(p, k) <= Pow2(M)
    ensures FlipBit(p, k) == Pow2(M) <==> k == M
  {
    NodeRange(t, 0, M, p, k);
    ZeroAligned(M);
    if k == M {
      ZeroAligned(M + 1);
      Halves(0, M);
    } else {
      BuddyIsHead(t, 0, M, p, k);
    }
  }

  /** The test `buddy_combine` makes on two page records is right: it says to merge exactly when the
      other half of the parent region is one free block. The exception is a block that is all of
      memory, whose test reads the entry after the table and goes wrong exactly when that entry
      looks like a free block of the same size. */
  lemma {:induction false} MergeDecision(M: nat, t: Tree, free: seq<bool>, size: seq<int>, p: nat, k: nat)
    requires Fits(t, M) && Recorded(M, t, free, size)
    requires HasNode(t, 0, M, p, k) && Sub(t, 0, M, p, k) == Leaf(Pending) && SettledBut(t, 0, M, p, k)
    ensures k <= M && p < Pow2(M) && FlipBit(p, k) <= Pow2(M)
    ensures free[p] && size[p] == k
    ensures free[FlipBit(p, k)] && size[FlipBit(p, k)] == size[p]
            <==> if k < M then Sibling(t, 0, M, p, k) == Leaf(Free) else !TableEndHarmless(M, free, size)
  {
    NodeRange(t, 0, M, p, k);
    SubPageAt(t, 0, M, p, k, p);
    assert PageRecorded(M, t, free, size, p);
    BuddyPastTable(M, t, p, k);
    if k < M {
      BuddiesMerge(M, t, p, k);
      assert PageRecorded(M, t, free, size, FlipBit(p, k));
    }
  }

  // ---------- A block that is all of memory ----------

  /** One request is enough: the block served for the highest order is all of memory, and its buddy's
      page lies past the table. */
  lemma {:induction false} WholeMemoryLive(M: nat)
    ensures var t := Run(M, [AllocateOrder(M)]);
            IsLive(t, M, 0) && PageAt(t, 0, M, 0) == Head(Live, M) && FlipBit(0, M) == Pow2(M)
  {
    assert [AllocateOrder(M)][..0] == [];
    assert FreeList(Leaf(Free), 0, M, M) == [0];
    BuddyPastTable(M, Leaf(Live), 0, M);
  }

  /** When that block is freed, the test on the records of its first page and of the page past the table
      says to merge exactly if that entry looks like a free block of the same size. There is nothing to
      merge with. */
  lemma {:induction false} LookAlikeMerges(M: nat, free: seq<bool>, size: seq<int>)
    requires Recorded(M, Leaf(Pending), free, size)
    ensures FlipBit(0, M) == Pow2(M) && !HasNode(Leaf(Pending), 0, M, Pow2(M), M)
    ensures free[FlipBit(0, M)] && size[FlipBit(0, M)] == size[0] <==> !TableEndHarmless(M, free, size)
  {
    MergeDecision(M, Leaf(Pending), free, size, 0, M);
    BuddyPastTable(M, Leaf(Pending), 0, M);
  }

  /** Such records exist for every size of memory. */
  lemma LookAlikeRecords(M: nat) returns (free: seq<bool>, size: seq<int>)
    ensures Recorded(M, Leaf(Pending), free, size) && !TableEndHarmless(M, free, size)
  {
    free := seq(Pow2(M) + 1, _ => true);
    size := seq(Pow2(M) + 1, _ => M);
  }
}
