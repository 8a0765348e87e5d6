/** The buddy allocator on its page table and free lists (buddy/buddy.c).

    Page indices stand for pages, orders are relative to `MIN_ORDER`, and the number of orders is a
    parameter. List node `p` is the `list` field of page `p`; the list heads `free_area[]` come
    after the pages. */
module Buddy {
  import opened Common
  import opened Powers
  import opened Links
  import opened BuddyTree
  import opened BuddySpec
  import opened BuddyState

  /** Smallest order from `o` up whose blocks hold `size` bytes. */
  function NeededOrder(size: int, o: nat): (r: nat)
    ensures o <= r && size <= Pow2(r)
    ensures forall j :: o <= j < r ==> Pow2(j) < size
    decreases size - Pow2(o)
  {
    if Pow2(o) < size then NeededOrder(size, o + 1) else o
  }

  class Allocator {
    const minOrder: nat
    /** `MAX_ORDER - MIN_ORDER`: memory has `2^M` pages. */
    const M: nat

    /** The page table. The entry after the last page is whatever memory follows the table: freeing
        a block that is the whole of memory makes the source look at it. */
    const isFree: array<bool>
    const blockSize: array<int>
    const links: ListTable

    /** How memory is divided. */
    ghost var tree: Tree

    ghost predicate Shape() {
      && isFree.Length == blockSize.Length == Pow2(M) + 1
      && links.next.Length == Pow2(M) + M + 2
      && blockSize != links.next && blockSize != links.prev && links.next != links.prev
    }

    /** Page table and lists agree with `tree`, which may be in the middle of a merge. */
    ghost predicate Consistent()
      reads this, isFree, blockSize, links, links.next, links.prev
    {
      && Shape() && Fits(tree, M)
      && links.Valid() && ListsShow(M, tree, links.rings)
      && Recorded(M, tree, isFree[..], blockSize[..])
    }

    ghost predicate Valid()
      reads this, isFree, blockSize, links, links.next, links.prev
    {
      Consistent() && Good(tree, M)
    }

    /** `buddy_init`. */
    constructor (minOrder: nat, M: nat, pastFree: bool, pastSize: int)
      ensures this.minOrder == minOrder && this.M == M
      ensures Valid() && tree == Run(M, [])
      ensures EndHarmless() <==> !(pastFree && pastSize == M)
      ensures fresh(isFree) && fresh(blockSize) && fresh(links) && fresh(links.next) && fresh(links.prev)
    {
      this.minOrder, this.M := minOrder, M;
      var n := Pow2(M);
      isFree := new bool[n + 1](_ => pastFree);
      blockSize := new int[n + 1](_ => pastSize);
      links := new ListTable(n + M + 2);
      tree := Leaf(Free);
      new;
      InitTable();
      InitLists();
      assert blockSize[..] == blockSize[..n][0 := M] + [pastSize];
      ListsInitially(links.rings);
    }

    /** The loop over the pages; the source stores an absolute order of 0. */
    method InitTable()
      requires Shape()
      modifies isFree, blockSize
      ensures isFree[Pow2(M)] == old(isFree[Pow2(M)]) && blockSize[Pow2(M)] == old(blockSize[Pow2(M)])
      ensures forall x :: 0 <= x < Pow2(M) ==> isFree[x]
      ensures blockSize[0] == M
    {
      var unset: int := 0 - minOrder;
      var i := 0;
      while i < Pow2(M)
        invariant 0 <= i <= Pow2(M)
        invariant isFree[Pow2(M)] == old(isFree[Pow2(M)]) && blockSize[Pow2(M)] == old(blockSize[Pow2(M)])
        invariant forall x :: 0 <= x < i ==> isFree[x]
      {
        isFree[i] := true;
        blockSize[i] := unset;
        i := i + 1;
      }
      blockSize[0] := M;
    }

    /** Empty lists for all orders but the highest, which holds page 0. */
    method InitLists()
      requires Shape() && links.Valid() && links.rings == []
      modifies links, links.next, links.prev
      ensures links.Valid() && |links.rings| == M + 1
      ensures forall o :: 0 <= o < M ==> links.rings[o] == [HeadNode(M, o)]
      ensures links.rings[M] == [HeadNode(M, M), 0]
    {
      var i := 0;
      while i <= M
        invariant 0 <= i <= M + 1
        invariant links.Valid() && |links.rings| == i
        invariant forall o :: 0 <= o < i ==> links.rings[o] == [HeadNode(M, o)]
      {
        links.InitListHead(HeadNode(M, i));
        i := i + 1;
      }
      links.ListAdd(0, HeadNode(M, M), M);
    }

    lemma ListsInitially(rings: seq<seq<nat>>)
      requires |rings| == M + 1 && rings[M] == [HeadNode(M, M), 0]
      requires forall o :: 0 <= o < M ==> rings[o] == [HeadNode(M, o)]
      ensures ListsShow(M, Leaf(Free), rings)
    {
      forall o | 0 <= o <= M ensures rings[o] == [HeadNode(M, o)] + FreeList(Leaf(Free), 0, M, o) {
      }
    }

    /** `list_entry(free_area[o].next, page_t, list)` on a non-empty list is its first block. */
    method FirstPage(o: nat) returns (p: nat)
      requires Consistent() && o <= M && FreeList(tree, 0, M, o) != []
      ensures p == FreeList(tree, 0, M, o)[0] && p < Pow2(M)
      ensures |links.rings[o]| > 1 && links.rings[o][1] == p
      ensures HasNode(tree, 0, M, p, o) && Sub(tree, 0, M, p, o) == Leaf(Free)
    {
      ghost var ring := links.rings[o];
      assert ring == [HeadNode(M, o)] + FreeList(tree, 0, M, o);
      assert links.next[..][links.rings[o][0]] == Succ(ring, 0);
      FirstIsRegion(tree, M, o);
      p := links.next[HeadNode(M, o)];
    }

    /** `buddy_split`: the first free block of the given order becomes the two free blocks of the
        next lower order, of which there must be none. */
    method BuddySplit(order: nat)
      requires Consistent() && 0 < order <= M
      requires FreeList(tree, 0, M, order) != [] && FreeList(tree, 0, M, order - 1) == []
      modifies this, blockSize, links, links.next, links.prev
      ensures Consistent()
      ensures TableEnd() == old(TableEnd())
      ensures var p := FreeList(old(tree), 0, M, order)[0];
              && HasNode(old(tree), 0, M, p, order)
              && tree == Put(old(tree), 0, M, p, order, Node(Leaf(Free), Leaf(Free)))
    {
      hide Linked, FreeList, Put, Sub, HasNode, Fits, FlipBit;
      var p := FirstPage(order);
      SplitPages(order, p);
      var q := FlipBit(p, order - 1);
      ghost var rings0 := links.rings;
      links.ListDel(p, order, 1);
      blockSize[p] := order - 1;
      blockSize[q] := order - 1;
      CutMember(rings0, order, 1, 2, q);
      ghost var rings1 := links.rings;
      assert rings0[order - 1][0] == HeadNode(M, order - 1);
      links.ListAdd(q, HeadNode(M, order - 1), order - 1);
      InsertMember(rings1, order - 1, 1, q, p);
      links.ListAdd(p, HeadNode(M, order - 1), order - 1);
      SplitLists(M, tree, rings0, p, q, order);
      SplitRecorded(M, tree, isFree[..], old(blockSize[..]), p, q, order);
      assert blockSize[..] == old(blockSize[..])[p := order - 1][q := order - 1];
      tree := Put(tree, 0, M, p, order, Node(Leaf(Free), Leaf(Free)));
    }

    lemma {:induction false} SplitPages(order: nat, p: nat)
      requires Consistent() && 0 < order <= M
      requires HasNode(tree, 0, M, p, order) && Sub(tree, 0, M, p, order) == Leaf(Free)
      ensures FlipBit(p, order - 1) == p + Pow2(order - 1)
      ensures p + Pow2(order - 1) < Pow2(M)
      ensures !Member(links.rings, p + Pow2(order - 1))
    {
      ZeroAligned(M);
      NodeRange(tree, 0, M, p, order);
      Halves(p, order - 1);
      var q := p + Pow2(order - 1);
      SubPageAt(tree, 0, M, p, order, q);
      if Member(links.rings, q) { MemberIsFree(M, tree, links.rings, q); }
    }

    /** `page`, of order `k`, is free but on no list, and all other blocks are settled. */
    ghost predicate Merging(page: nat, k: nat)
      reads this
    {
      && Fits(tree, M) && Coalesced(tree) && page < Pow2(M) && k <= M
      && HasNode(tree, 0, M, page, k) && Sub(tree, 0, M, page, k) == Leaf(Pending)
      && SettledBut(tree, 0, M, page, k)
    }

    /** `buddy_combine`: merge the block at `page` with its buddy for as long as that is free too. */
    method BuddyCombine(page: nat, buddy: nat, ghost k: nat) returns (res: nat, ghost k': nat)
      requires Consistent() && Merging(page, k) && buddy == FlipBit(page, k)
      requires k == M ==> EndHarmless()
      modifies this, blockSize, links, links.next, links.prev
      ensures Consistent() && Merging(res, k')
      ensures TableEnd() == old(TableEnd())
      ensures k' < M ==> Sibling(tree, 0, M, res, k') != Leaf(Free)
      ensures Coalesce(tree) == Coalesce(old(tree))
      decreases M - k
    {
      res, k' := page, k;
      PendingRecord(page, k);
      if !isFree[buddy] {
        return;
      }
      if blockSize[buddy] != blockSize[page] {
        return;
      }
      var first := Merge(page, buddy, k);
      if blockSize[first] == M {
        res, k' := first, k + 1;
        return;
      }
      var next := FlipBit(first, blockSize[first]);
      res, k' := BuddyCombine(first, next, k + 1);
    }

    /** One merge: unlink the buddy and let the first of the two pages stand for both blocks. */
    method Merge(page: nat, buddy: nat, ghost k: nat) returns (first: nat)
      requires Consistent() && Coalesced(tree) && First(page, buddy) < blockSize.Length
      requires Mergeable(M, tree, page, buddy, First(page, buddy), k) && blockSize[First(page, buddy)] == k
      modifies this, blockSize, links, links.next, links.prev
      ensures Consistent() && Merging(first, k + 1) && blockSize[first] == k + 1
      ensures Coalesce(tree) == Coalesce(old(tree))
      ensures TableEnd() == old(TableEnd())
    {
      hide Linked, FreeList, Put, Sub, HasNode, Fits, FlipBit, Before, Coalesce;
      first := First(page, buddy);
      ghost var m := 1 + |Before(tree, 0, M, buddy, k, k)|;
      MergeLists(M, tree, links.rings, page, buddy, first, k);
      MergeRecorded(M, tree, isFree[..], blockSize[..], page, buddy, first, k);
      MergeTree(M, tree, page, buddy, first, k);
      links.ListDel(buddy, k, m);
      blockSize[first] := blockSize[first] + 1;
      assert blockSize[..] == old(blockSize[..])[first := k + 1];
      tree := Put(tree, 0, M, first, k + 1, Leaf(Pending));
    }

    static function First(page: nat, buddy: nat): nat {
      if buddy < page then buddy else page
    }

    /** What the page records tell about a pending block and the page in buddy position. */
    lemma {:induction false} PendingRecord(page: nat, k: nat)
      requires Consistent() && Merging(page, k)
      ensures FlipBit(page, k) <= Pow2(M) && isFree[page] && blockSize[page] == k
      ensures isFree[FlipBit(page, k)] && blockSize[FlipBit(page, k)] == k
              <==> if k < M then Sibling(tree, 0, M, page, k) == Leaf(Free) else !EndHarmless()
      ensures k < M && Sibling(tree, 0, M, page, k) == Leaf(Free)
              ==> var buddy := FlipBit(page, k);
                  && Mergeable(M, tree, page, buddy, First(page, buddy), k)
                  && blockSize[First(page, buddy)] == k
    {
      MergeDecision(M, tree, isFree[..], blockSize[..], page, k);
      if k < M { BuddiesMerge(M, tree, page, k); }
    }

    /** The entry after the page table, which the allocator never writes. */
    ghost function TableEnd(): (bool, int)
      requires Shape()
      reads isFree, blockSize
    {
      (isFree[Pow2(M)], blockSize[Pow2(M)])
    }

    ghost predicate EndHarmless()
      requires Shape()
      reads isFree, blockSize
    {
      TableEndHarmless(M, isFree[..], blockSize[..])
    }

    /** `buddy_alloc`: the byte offset of a block holding `size` bytes, or nothing. */
    method BuddyAlloc(size: int) returns (addr: Option<nat>)
      requires Valid() && size <= 0x4000_0000
      modifies this, isFree, blockSize, links, links.next, links.prev
      ensures Valid()
      ensures TableEnd() == old(TableEnd())
      ensures var k := NeededOrder(size, minOrder) - minOrder;
              var (p, t) := Alloc(old(tree), M, k);
              && tree == t
              && addr == match p { case None => None case Some(page) => Some(page * Pow2(minOrder)) }
    {
      hide Linked, FreeList, Put, Sub, HasNode, Fits, Coalesced, NeededOrder, Carved;
      var needed := OrderFor(size);
      var k := needed - minOrder;
      if k > M {
        return None;
      }
      var o := FindOrder(k);
      if o > M {
        return None;
      }
      var page := Carve(k, o);
      return Some(page * Pow2(minOrder));
    }

    /** The loop of `buddy_alloc` over sizes. */
    method OrderFor(size: int) returns (needed: nat)
      ensures needed == NeededOrder(size, minOrder)
    {
      needed := minOrder;
      while Pow2(needed) < size
        invariant minOrder <= needed && NeededOrder(size, minOrder) == NeededOrder(size, needed)
        decreases size - Pow2(needed)
      {
        needed := needed + 1;
      }
    }

    /** The search loop of `buddy_alloc`: the smallest sufficient order with a free block. */
    method FindOrder(k: nat) returns (o: nat)
      requires Consistent() && k <= M
      ensures o == FirstFit(tree, M, k)
    {
      o := k;
      var empty := IsEmpty(o);
      while empty
        invariant k <= o <= M && (empty <==> FreeList(tree, 0, M, o) == [])
        invariant FirstFit(tree, M, k) == FirstFit(tree, M, o)
        decreases M - o, empty
      {
        if o >= M {
          return M + 1;
        }
        o := o + 1;
        empty := IsEmpty(o);
      }
    }

    method IsEmpty(o: nat) returns (empty: bool)
      requires Consistent() && o <= M
      ensures empty <==> FreeList(tree, 0, M, o) == []
    {
      assert links.rings[o] == [HeadNode(M, o)] + FreeList(tree, 0, M, o);
      empty := links.ListEmpty(HeadNode(M, o), o);
    }

    /** Second half of `buddy_alloc`: split down from order `o`, then take the block. */
    method Carve(k: nat, o: nat) returns (page: nat)
      requires Valid() && k <= o <= M && FirstFit(tree, M, k) == o
      modifies this, isFree, blockSize, links, links.next, links.prev
      ensures Valid() && Alloc(old(tree), M, k) == (Some(page), tree)
      ensures TableEnd() == old(TableEnd())
    {
      hide Linked, FreeList, Put, Sub, HasNode, Fits, Coalesced;
      ghost var t0 := tree;
      ghost var p := FreeList(t0, 0, M, o)[0];
      FirstIsRegion(t0, M, o);
      PutSub(t0, 0, M, p, o);
      var i := o;
      while i > k
        invariant k <= i <= o && Consistent()
        invariant tree == Put(t0, 0, M, p, o, Carved(o, i, Free))
        invariant TableEnd() == old(TableEnd())
        invariant FreeList(tree, 0, M, i) != [] && FreeList(tree, 0, M, i)[0] == p
        invariant forall j :: k <= j < i ==> FreeList(tree, 0, M, j) == []
        modifies this, blockSize, links, links.next, links.prev
      {
        CarveStep(t0, p, o, i, k);
        BuddySplit(i);
        i := i - 1;
      }
      CarvedRegion(p, o, k);
      PutPut(t0, 0, M, p, o, Carved(o, k, Free), p, k, Leaf(Live));
      page := Take(k);
      AllocGood(t0, M, k);
    }

    /** Take the first free block of order `k`. */
    method Take(k: nat) returns (page: nat)
      requires Consistent() && k <= M && FreeList(tree, 0, M, k) != []
      modifies this, isFree, links, links.next, links.prev
      ensures Consistent() && page == FreeList(old(tree), 0, M, k)[0]
      ensures TableEnd() == old(TableEnd())
      ensures HasNode(old(tree), 0, M, page, k) && tree == Put(old(tree), 0, M, page, k, Leaf(Live))
    {
      page := FirstPage(k);
      TakeLists(M, tree, links.rings, page, k, Live);
      LeafRecorded(M, tree, isFree[..], blockSize[..], page, k, Live);
      links.ListDel(page, k, 1);
      isFree[page] := false;
      assert isFree[..] == old(isFree[..])[page := false];
      tree := Put(tree, 0, M, page, k, Leaf(Live));
    }

    /** A block carved down to order `k` has its leftmost piece at its first page. */
    static lemma {:induction false} CarvedRegion(p: nat, o: nat, k: nat)
      requires k <= o
      ensures HasNode(Carved(o, k, Free), p, o, p, k) && Sub(Carved(o, k, Free), p, o, p, k) == Leaf(Free)
      ensures forall kind :: Put(Carved(o, k, Free), p, o, p, k, Leaf(kind)) == Carved(o, k, kind)
      ensures k > 0 ==> Put(Carved(o, k, Free), p, o, p, k, Node(Leaf(Free), Leaf(Free))) == Carved(o, k - 1, Free)
      decreases o
    {
      if o > k { CarvedRegion(p, o - 1, k); }
    }

    /** One split of the carving loop. */
    lemma CarveStep(t0: Tree, p: nat, o: nat, i: nat, k: nat)
      requires Fits(t0, M) && k < i <= o <= M && HasNode(t0, 0, M, p, o)
      requires var t := Put(t0, 0, M, p, o, Carved(o, i, Free));
               && FreeList(t, 0, M, i) != [] && FreeList(t, 0, M, i)[0] == p
               && forall j :: k <= j < i ==> FreeList(t, 0, M, j) == []
      ensures var t := Put(t0, 0, M, p, o, Carved(o, i, Free));
              && HasNode(t, 0, M, p, i)
              && var t' := Put(t, 0, M, p, i, Node(Leaf(Free), Leaf(Free)));
              && t' == Put(t0, 0, M, p, o, Carved(o, i - 1, Free))
              && FreeList(t', 0, M, i - 1) != [] && FreeList(t', 0, M, i - 1)[0] == p
              && forall j :: k <= j < i - 1 ==> FreeList(t', 0, M, j) == []
    {
      var t := Put(t0, 0, M, p, o, Carved(o, i, Free));
      CarvedRegion(p, o, i);
      PutPut(t0, 0, M, p, o, Carved(o, i, Free), p, i, Node(Leaf(Free), Leaf(Free)));
      var t' := Put(t, 0, M, p, i, Node(Leaf(Free), Leaf(Free)));
      forall j | k <= j < i ensures FreeList(t', 0, M, j) == if j == i - 1 then [p, p + Pow2(i - 1)] else [] {
        SplitFreeList(M, t, p, p + Pow2(i - 1), i, j);
      }
    }

    /** `buddy_free`: free the block at byte offset `addr` and merge it as far as possible. */
    method BuddyFree(addr: nat)
      requires Valid() && addr % Pow2(minOrder) == 0 && IsLive(tree, M, addr / Pow2(minOrder))
      requires PageAt(tree, 0, M, addr / Pow2(minOrder)).order == M ==> EndHarmless()
      modifies this, isFree, blockSize, links, links.next, links.prev
      ensures Valid() && tree == Release(old(tree), M, addr / Pow2(minOrder))
      ensures TableEnd() == old(TableEnd())
    {
      hide Linked, FreeList, Put, Sub, HasNode, Fits, FlipBit, Coalesce, Coalesced;
      var page := addr / Pow2(minOrder);
      ghost var k := PageAt(tree, 0, M, page).order;
      HeadIsLeaf(tree, 0, M, page);
      NodeRange(tree, 0, M, page, k);
      assert PageRecorded(M, tree, isFree[..], blockSize[..], page);
      PendTree(M, tree, page, k);
      LeafRecorded(M, tree, isFree[..], blockSize[..], page, k, Pending);
      OffListLists(M, tree, links.rings, page, k, Pending);
      isFree[page] := true;
      assert isFree[..] == old(isFree[..])[page := true];
      tree := Put(tree, 0, M, page, k, Leaf(Pending));
      BuddyAddress(addr, k);
      var buddy := FlipBit(addr, minOrder + blockSize[page]) / Pow2(minOrder);
      ghost var t1 := tree;
      var res;
      ghost var k';
      res, k' := BuddyCombine(page, buddy, k);
      SettleTree(M, tree, res, k');
      InsertOrdered(res, k');
    }

    /** A client: what was just allocated is freed again. All lists are back as they were. */
    method AllocAndFree(size: int) returns (served: bool)
      requires Valid() && size <= 0x4000_0000
      requires NeededOrder(size, minOrder) - minOrder < M || EndHarmless()
      modifies this, isFree, blockSize, links, links.next, links.prev
      ensures Valid() && links.rings == old(links.rings)
      ensures TableEnd() == old(TableEnd())
    {
      ghost var t0 := tree;
      ghost var k := NeededOrder(size, minOrder) - minOrder;
      var addr := BuddyAlloc(size);
      served := addr.Some?;
      if served {
        AllocThenFree(t0, M, k);
        AllocLaw(t0, M, k);
        MulDiv(Alloc(t0, M, k).0.value, Pow2(minOrder));
        MultipleMod(Alloc(t0, M, k).0.value, Pow2(minOrder));
        BuddyFree(addr.value);
      }
      assert forall o | 0 <= o <= M :: links.rings[o] == old(links.rings)[o];
    }

    /** `ADDR_TO_PAGE(BUDDY_ADDR(addr, o))`. */
    lemma {:induction false} BuddyAddress(addr: nat, k: nat)
      requires addr % Pow2(minOrder) == 0
      ensures FlipBit(addr, minOrder + k) / Pow2(minOrder) == FlipBit(addr / Pow2(minOrder), k)
    {
      var p := addr / Pow2(minOrder);
      assert addr == p * Pow2(minOrder);
      FlipBitScales(p, minOrder, k);
      var d := Pow2(minOrder);
      assert (FlipBit(p, k) * d) / d == FlipBit(p, k) by { MulDiv(FlipBit(p, k), d); }
    }

    /** Last part of `buddy_free`: put the block on its list, before the first one with a greater
        index. */
    method InsertOrdered(res: nat, ghost k: nat)
      requires Consistent() && Merging(res, k)
      modifies this, links, links.next, links.prev
      ensures Consistent() && tree == Put(old(tree), 0, M, res, k, Leaf(Free))
    {
      hide Linked, Put, Sub, HasNode, Fits, FreeList, FlipBit, Coalesce, Coalesced;
      PendingRecord(res, k);
      var head := HeadNode(M, blockSize[res]);
      var at;
      ghost var i;
      at, i := FindPlace(res, head, k);
      ghost var list := FreeList(tree, 0, M, k);
      InsertLists(M, tree, links.rings, res, k, i);
      LeafRecorded(M, tree, isFree[..], blockSize[..], res, k, Free);
      assert isFree[..][res := true] == isFree[..];
      PendingOffList(res, k);
      links.ListAddTail(res, at, k, if i < |list| then 1 + i else 0);
      tree := Put(tree, 0, M, res, k, Leaf(Free));
    }

    /** The loop over the list: the node to insert before, and its position. */
    method FindPlace(res: nat, head: nat, ghost k: nat) returns (at: nat, ghost i: nat)
      requires Consistent() && Merging(res, k) && head == HeadNode(M, k)
      ensures InsertionPoint(FreeList(tree, 0, M, k), res, i)
      ensures i <= |links.rings[k]| - 1
      ensures at == links.rings[k][if i < |FreeList(tree, 0, M, k)| then 1 + i else 0]
    {
      hide Put, Sub, HasNode, Fits, FreeList, Coalesced;
      at := head;
      ghost var list := FreeList(tree, 0, M, k);
      ghost var ring := links.rings[k];
      assert ring == [HeadNode(M, k)] + list;
      FreeListRange(tree, 0, M, k);
      assert links.next[..][links.rings[k][0]] == Succ(ring, 0);
      var pos := links.next[head];
      i := 0;
      while pos != head
        invariant 0 <= i <= |list| && at == head
        invariant pos == if i < |list| then list[i] else head
        invariant forall j :: 0 <= j < i ==> list[j] < res
        decreases |list| - i
      {
        assert pos in list;
        if res < pos {
          at := pos;
          break;
        }
        NotOnList(res, k, list, i);
        assert links.next[..][links.rings[k][i + 1]] == Succ(ring, i + 1);
        pos := links.next[pos];
        i := i + 1;
      }
    }

    lemma PendingOffList(res: nat, k: nat)
      requires Consistent() && Merging(res, k)
      ensures !Member(links.rings, res)
    {
      SubPageAt(tree, 0, M, res, k, res);
      if Member(links.rings, res) { MemberIsFree(M, tree, links.rings, res); }
    }

    lemma {:induction false} NotOnList(res: nat, k: nat, list: seq<nat>, i: nat)
      requires Consistent() && Merging(res, k) && list == FreeList(tree, 0, M, k) && i < |list|
      ensures list[i] != res
    {
      SubPageAt(tree, 0, M, res, k, res);
      FreeListIsHeads(tree, 0, M, res, k);
      assert list[i] in list;
    }
  }

  /** A client that gets into the one state from which `BuddyFree` cannot go on: all of memory is one live
      block, and what follows the page table looks like a free block of that size. */
  method WholeMemoryTrap(minOrder: nat, M: nat) returns (a: Allocator, addr: Option<nat>)
    requires Pow2(minOrder + M) <= 0x4000_0000
    ensures fresh(a) && a.minOrder == minOrder && a.M == M && a.Valid() && addr == Some(0)
    ensures IsLive(a.tree, M, 0) && PageAt(a.tree, 0, M, 0) == Head(Live, M) && !a.EndHarmless()
  {
    a := new Allocator(minOrder, M, true, M);
    WholeMemoryLive(M);
    LastOrder(minOrder, M);
    addr := a.BuddyAlloc(Pow2(minOrder + M));
    assert [AllocateOrder(M)][..0] == [];
    assert FreeList(Leaf(Free), 0, M, M) == [0];
  }

  lemma LastOrder(minOrder: nat, M: nat)
    ensures NeededOrder(Pow2(minOrder + M), minOrder) == minOrder + M
  {
    var r := NeededOrder(Pow2(minOrder + M), minOrder);
    if r < minOrder + M { Pow2Strict(r, minOrder + M); }
  }

  lemma {:induction false} Pow2Strict(k: nat, o: nat)
    requires k < o
    ensures Pow2(k) < Pow2(o)
  {
    if k + 1 < o { Pow2Strict(k, o - 1); }
  }

  lemma MulDiv(x: nat, d: nat)
    requires d > 0
    ensures (x * d) / d == x
  {
    var n := x * d;
    var e := x - n / d;
    assert n % d == n - d * (n / d) == d * e;
    if e >= 1 {
      MulMonotone(d, 1, e);
    } else if e <= -1 {
      MulMonotone(d, e, -1);
    }
  }
}
