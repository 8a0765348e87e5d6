/** What allocating and freeing do to the division of memory, and the allocator's laws.

    `M` is the order of the whole memory. A request names the order it needs. */
module BuddySpec {
  import opened Common
  import opened Powers
  import opened BuddyTree

  /** A whole-memory division as the allocator leaves it between calls. */
  ghost predicate Good(t: Tree, M: nat) {
    Fits(t, M) && Coalesced(t) && Settled(t)
  }

  /** The smallest order from `k` up to `M` with a free block, or `M + 1` when there is none. */
  function FirstFit(t: Tree, M: nat, k: nat): (o: nat)
    requires Fits(t, M) && k <= M + 1
    ensures k <= o <= M + 1
    ensures forall j :: k <= j < o ==> FreeList(t, 0, M, j) == []
    ensures o <= M ==> FreeList(t, 0, M, o) != []
    decreases M + 1 - k
  {
    if k == M + 1 || FreeList(t, 0, M, k) != [] then k else FirstFit(t, M, k + 1)
  }

  /** A block of order `o` split down its left edge to order `k`, with `kind` the leftmost piece. */
  function Carved(o: nat, k: nat, kind: Kind): (t: Tree)
    requires k <= o
    ensures Fits(t, o)
    decreases o
  {
    if o == k then Leaf(kind) else Node(Carved(o - 1, k, kind), Leaf(Free))
  }

  /** Serve a request for a block of order `k` from the lowest block of the smallest sufficient
      order. */
  function Alloc(t: Tree, M: nat, k: nat): (r: (Option<nat>, Tree))
    requires Fits(t, M)
    ensures Fits(r.1, M)
  {
    if k > M then (None, t) else
      var o := FirstFit(t, M, k);
      if o > M then (None, t) else
        var p := FreeList(t, 0, M, o)[0];
        FirstIsRegion(t, M, o);
        (Some(p), Put(t, 0, M, p, o, Carved(o, k, Live)))
  }

  lemma {:induction false} FirstIsRegion(t: Tree, M: nat, o: nat)
    requires Fits(t, M) && FreeList(t, 0, M, o) != []
    ensures var p := FreeList(t, 0, M, o)[0];
            && o <= M && p + Pow2(o) <= Pow2(M)
            && HasNode(t, 0, M, p, o) && Sub(t, 0, M, p, o) == Leaf(Free)
  {
    var p := FreeList(t, 0, M, o)[0];
    FreeListRange(t, 0, M, o);
    assert p in FreeList(t, 0, M, o);
    FreeListIsHeads(t, 0, M, p, o);
    HeadIsLeaf(t, 0, M, p);
  }

  /** `p` is the address of an allocated block. */
  predicate IsLive(t: Tree, M: nat, p: nat)
    requires Fits(t, M)
  {
    p < Pow2(M) && PageAt(t, 0, M, p).Head? && PageAt(t, 0, M, p).kind == Live
  }

  /** Free the block at `p`, then merge free buddies as long as there are any. */
  function Release(t: Tree, M: nat, p: nat): (t': Tree)
    requires Fits(t, M) && IsLive(t, M, p)
    ensures Fits(t', M)
  {
    var k := PageAt(t, 0, M, p).order;
    HeadIsLeaf(t, 0, M, p);
    var t1 := Put(t, 0, M, p, k, Leaf(Free));
    CoalesceFits(t1, M);
    Coalesce(t1)
  }

  // ---------- Live blocks ----------

  lemma {:induction false} LiveBlocksAreHeads(t: Tree, b: nat, h: nat, p: nat, k: nat)
    requires Fits(t, h)
    ensures (p, k) in LiveBlocks(t, b, h) <==> b <= p < b + Pow2(h) && PageAt(t, b, h, p) == Head(Live, k)
  {
    if t.Node? {
      LiveBlocksAreHeads(t.left, b, h - 1, p, k);
      LiveBlocksAreHeads(t.right, b + Pow2(h - 1), h - 1, p, k);
    }
  }

  lemma {:induction false} LiveBlocksRange(t: Tree, b: nat, h: nat)
    requires Fits(t, h)
    ensures forall x :: x in LiveBlocks(t, b, h) ==> b <= x.0 < x.0 + Pow2(x.1) <= b + Pow2(h) && x.1 <= h
  {
    if t.Node? {
      LiveBlocksRange(t.left, b, h - 1);
      LiveBlocksRange(t.right, b + Pow2(h - 1), h - 1);
    }
  }

  /** A rewrite replaces the live blocks of the region and no others. */
  lemma {:induction false} PutLiveBlocks(t: Tree, b: nat, h: nat, p: nat, k: nat, n: Tree)
    requires Fits(t, h) && HasNode(t, b, h, p, k) && Fits(n, k)
    ensures LiveBlocks(Put(t, b, h, p, k, n), b, h)
         == LiveBlocks(t, b, h) - LiveBlocks(Sub(t, b, h, p, k), p, k) + LiveBlocks(n, p, k)
    ensures LiveBlocks(Sub(t, b, h, p, k), p, k) <= LiveBlocks(t, b, h)
    decreases t
  {
    if h > k {
      var m := b + Pow2(h - 1);
      var L, R := LiveBlocks(t.left, b, h - 1), LiveBlocks(t.right, m, h - 1);
      SidesApart(t.left, t.right, b, h - 1);
      hide LiveBlocks;
      if p < m {
        PutLiveBlocks(t.left, b, h - 1, p, k, n);
        ReplacePart(L, R, LiveBlocks(Sub(t, b, h, p, k), p, k), LiveBlocks(n, p, k));
      } else {
        PutLiveBlocks(t.right, m, h - 1, p, k, n);
        ReplacePart(R, L, LiveBlocks(Sub(t, b, h, p, k), p, k), LiveBlocks(n, p, k));
      }
    }
  }

  lemma SidesApart(l: Tree, r: Tree, b: nat, h: nat)
    requires Fits(l, h) && Fits(r, h)
    ensures LiveBlocks(l, b, h) !! LiveBlocks(r, b + Pow2(h), h)
  {
    LiveBlocksRange(l, b, h);
    LiveBlocksRange(r, b + Pow2(h), h);
  }

  lemma ReplacePart(a: set<(nat, nat)>, b: set<(nat, nat)>, s: set<(nat, nat)>, n: set<(nat, nat)>)
    requires s !! b
    ensures (a - s + n) + b == (a + b) - s + n
    ensures b + (a - s + n) == (b + a) - s + n
  {
  }

  lemma {:induction false} CoalesceKeepsLive(t: Tree, b: nat, h: nat)
    requires Fits(t, h)
    ensures Fits(Coalesce(t), h) && LiveBlocks(Coalesce(t), b, h) == LiveBlocks(t, b, h)
  {
    CoalesceFits(t, h);
    if t.Node? {
      CoalesceKeepsLive(t.left, b, h - 1);
      CoalesceKeepsLive(t.right, b + Pow2(h - 1), h - 1);
    }
  }

  lemma {:induction false} CarvedFacts(o: nat, k: nat, p: nat)
    requires k <= o
    ensures LiveBlocks(Carved(o, k, Live), p, o) == {(p, k)}
    ensures Coalesced(Carved(o, k, Live)) && Settled(Carved(o, k, Live))
    ensures Coalesce(Carved(o, k, Free)) == Leaf(Free)
    decreases o
  {
    if o > k {
      CarvedFacts(o - 1, k, p);
    }
  }

  lemma {:induction false} AllocLive(t: Tree, M: nat, k: nat)
    requires Fits(t, M) && Alloc(t, M, k).0.Some?
    ensures var (r, t') := Alloc(t, M, k);
            LiveBlocks(t', 0, M) == LiveBlocks(t, 0, M) + {(r.value, k)}
  {
    var o := FirstFit(t, M, k);
    var p := FreeList(t, 0, M, o)[0];
    FirstIsRegion(t, M, o);
    CarveLive(t, M, p, o, k);
  }

  lemma {:induction false} CarveLive(t: Tree, M: nat, p: nat, o: nat, k: nat)
    requires Fits(t, M) && k <= o && HasNode(t, 0, M, p, o) && Sub(t, 0, M, p, o) == Leaf(Free)
    ensures LiveBlocks(Put(t, 0, M, p, o, Carved(o, k, Live)), 0, M) == LiveBlocks(t, 0, M) + {(p, k)}
  {
    CarvedFacts(o, k, p);
    assert LiveBlocks(Leaf(Free), p, o) == {};
    hide Put, Sub, HasNode, Carved, LiveBlocks;
    PutLiveBlocks(t, 0, M, p, o, Carved(o, k, Live));
  }

  lemma {:induction false} AllocFresh(t: Tree, M: nat, k: nat, j: nat)
    requires Fits(t, M) && Alloc(t, M, k).0.Some?
    ensures (Alloc(t, M, k).0.value, j) !in LiveBlocks(t, 0, M)
  {
    var o := FirstFit(t, M, k);
    var p := FreeList(t, 0, M, o)[0];
    FirstIsRegion(t, M, o);
    assert p in FreeList(t, 0, M, o);
    FreeListIsHeads(t, 0, M, p, o);
    LiveBlocksAreHeads(t, 0, M, p, j);
  }

  lemma AllocGood(t: Tree, M: nat, k: nat)
    requires Good(t, M) && Alloc(t, M, k).0.Some?
    ensures Good(Alloc(t, M, k).1, M)
  {
    var o := FirstFit(t, M, k);
    var p := FreeList(t, 0, M, o)[0];
    FirstIsRegion(t, M, o);
    CarvedFacts(o, k, p);
    PutCoalesced(t, 0, M, p, o, Carved(o, k, Live));
    SettledSettlesBut(t, 0, M, p, o);
    PutSettled(t, 0, M, p, o, Carved(o, k, Live));
  }

  /** Allocating adds one live block of the order asked for, at an address where there was none, and
      keeps free buddies merged. */
  lemma {:induction false} AllocLaw(t: Tree, M: nat, k: nat)
    requires Good(t, M) && Alloc(t, M, k).0.Some?
    ensures var (r, t') := Alloc(t, M, k);
            && Good(t', M) && r.value + Pow2(k) <= Pow2(M) && r.value % Pow2(k) == 0
            && PageAt(t', 0, M, r.value) == Head(Live, k)
            && LiveBlocks(t', 0, M) == LiveBlocks(t, 0, M) + {(r.value, k)}
            && forall j: nat :: (r.value, j) !in LiveBlocks(t, 0, M)
  {
    AllocGood(t, M, k);
    AllocLive(t, M, k);
    var (r, t') := Alloc(t, M, k);
    var p := r.value;
    forall j: nat ensures (p, j) !in LiveBlocks(t, 0, M) { AllocFresh(t, M, k, j); }
    assert (p, k) in LiveBlocks(t', 0, M);
    LiveBlocksAreHeads(t', 0, M, p, k);
    HeadIsLeaf(t', 0, M, p);
    ZeroAligned(M);
    NodeRange(t', 0, M, p, k);
    AlignedIsDivisible(p, k);
  }

  /** Freeing removes exactly the block at `p` from the live blocks, and leaves no two free
      buddies. */
  lemma {:induction false} ReleaseLaw(t: Tree, M: nat, p: nat)
    requires Good(t, M) && IsLive(t, M, p)
    ensures Good(Release(t, M, p), M)
    ensures LiveBlocks(Release(t, M, p), 0, M) == LiveBlocks(t, 0, M) - {(p, PageAt(t, 0, M, p).order)}
    ensures (p, PageAt(t, 0, M, p).order) in LiveBlocks(t, 0, M)
  {
    var k := PageAt(t, 0, M, p).order;
    HeadIsLeaf(t, 0, M, p);
    var t1 := Put(t, 0, M, p, k, Leaf(Free));
    PutLiveBlocks(t, 0, M, p, k, Leaf(Free));
    CoalesceKeepsLive(t1, 0, M);
    CoalesceFits(t1, M);
    LiveBlocksAreHeads(t, 0, M, p, k);
  }

  // ---------- History independence ----------

  lemma {:induction false} NothingLiveIsFree(t: Tree, b: nat, h: nat)
    requires Good(t, h) && LiveBlocks(t, b, h) == {}
    ensures t == Leaf(Free)
  {
    if t.Node? {
      NothingLiveIsFree(t.left, b, h - 1);
      NothingLiveIsFree(t.right, b + Pow2(h - 1), h - 1);
    }
  }

  /** The live blocks determine the division of memory, hence every free list with its order: what
      the allocator does next never depends on how its state came about. */
  lemma {:induction false} HistoryIndependence(t1: Tree, t2: Tree, b: nat, h: nat)
    requires Good(t1, h) && Good(t2, h)
    requires LiveBlocks(t1, b, h) == LiveBlocks(t2, b, h)
    ensures t1 == t2
  {
    if LiveBlocks(t1, b, h) == {} {
      NothingLiveIsFree(t1, b, h);
      NothingLiveIsFree(t2, b, h);
    } else if t1.Leaf? || t2.Leaf? {
      LiveBlocksAreHeads(t1, b, h, b, h);
      LiveBlocksAreHeads(t2, b, h, b, h);
      FirstPageIsHead(t1, b, h);
      FirstPageIsHead(t2, b, h);
    } else {
      var m := b + Pow2(h - 1);
      LiveBlocksRange(t1.left, b, h - 1);
      LiveBlocksRange(t2.left, b, h - 1);
      LiveBlocksRange(t1.right, m, h - 1);
      LiveBlocksRange(t2.right, m, h - 1);
      SplitEqual(LiveBlocks(t1.left, b, h - 1), LiveBlocks(t1.right, m, h - 1),
                 LiveBlocks(t2.left, b, h - 1), LiveBlocks(t2.right, m, h - 1), m);
      HistoryIndependence(t1.left, t2.left, b, h - 1);
      HistoryIndependence(t1.right, t2.right, m, h - 1);
    }
  }

  lemma SplitEqual(l1: set<(nat, nat)>, r1: set<(nat, nat)>, l2: set<(nat, nat)>, r2: set<(nat, nat)>, m: nat)
    requires l1 + r1 == l2 + r2
    requires forall x :: x in l1 || x in l2 ==> x.0 < m
    requires forall x :: x in r1 || x in r2 ==> m <= x.0
    ensures l1 == l2 && r1 == r2
  {
    forall x ensures x in l1 <==> x in l2 {
      assert x in l1 ==> x in l1 + r1;
      assert x in l2 ==> x in l2 + r2;
    }
    forall x ensures x in r1 <==> x in r2 {
      assert x in r1 ==> x in l1 + r1;
      assert x in r2 ==> x in l2 + r2;
    }
  }

  /** Freeing a block as soon as it was allocated restores the division of memory, and so every
      free list exactly, however many splits and merges that took. */
  lemma AllocThenFree(t: Tree, M: nat, k: nat)
    requires Good(t, M) && Alloc(t, M, k).0.Some?
    ensures var (r, t') := Alloc(t, M, k);
            IsLive(t', M, r.value) && Release(t', M, r.value) == t
  {
    AllocLaw(t, M, k);
    var (r, t') := Alloc(t, M, k);
    ReleaseLaw(t', M, r.value);
    assert LiveBlocks(Release(t', M, r.value), 0, M) == LiveBlocks(t, 0, M);
    HistoryIndependence(Release(t', M, r.value), t, 0, M);
  }

  // ---------- Completeness of allocation ----------

  /** Page `x` belongs to an allocated block. */
  ghost predicate PageLive(t: Tree, M: nat, x: nat)
    requires Fits(t, M)
  {
    exists p, k :: (p, k) in LiveBlocks(t, 0, M) && p <= x < p + Pow2(k)
  }

  /** There is an aligned region of order `k` without a page in use. */
  ghost predicate RoomFor(t: Tree, M: nat, k: nat)
    requires Fits(t, M)
  {
    exists q: nat ::
      q % Pow2(k) == 0 && q + Pow2(k) <= Pow2(M) && forall x :: q <= x < q + Pow2(k) ==> !PageLive(t, M, x)
  }

  lemma {:induction false} LiveKind(t: Tree, b: nat, h: nat, x: nat)
    requires Fits(t, h) && b <= x < b + Pow2(h) && KindAt(t, b, h, x) == Live
    ensures exists p, k :: (p, k) in LiveBlocks(t, b, h) && p <= x < p + Pow2(k)
  {
    match t
    case Leaf(_) =>
      assert (b, h) in LiveBlocks(t, b, h);
    case Node(l, r) =>
      var m := b + Pow2(h - 1);
      if x < m {
        LiveKind(l, b, h - 1, x);
        var p, k :| (p, k) in LiveBlocks(l, b, h - 1) && p <= x < p + Pow2(k);
        assert (p, k) in LiveBlocks(t, b, h);
      } else {
        LiveKind(r, m, h - 1, x);
        var p, k :| (p, k) in LiveBlocks(r, m, h - 1) && p <= x < p + Pow2(k);
        assert (p, k) in LiveBlocks(t, b, h);
      }
  }

  lemma {:induction false} KindLive(t: Tree, b: nat, h: nat, p: nat, k: nat, x: nat)
    requires Fits(t, h) && (p, k) in LiveBlocks(t, b, h) && p <= x < p + Pow2(k)
    ensures KindAt(t, b, h, x) == Live
  {
    if t.Node? {
      LiveBlocksRange(t.left, b, h - 1);
      LiveBlocksRange(t.right, b + Pow2(h - 1), h - 1);
      if (p, k) in LiveBlocks(t.left, b, h - 1) {
        KindLive(t.left, b, h - 1, p, k, x);
      } else {
        KindLive(t.right, b + Pow2(h - 1), h - 1, p, k, x);
      }
    }
  }

  /** A page is live exactly when the block it belongs to is. */
  lemma {:induction false} PageLiveKind(t: Tree, M: nat, x: nat)
    requires Fits(t, M) && x < Pow2(M)
    ensures PageLive(t, M, x) <==> KindAt(t, 0, M, x) == Live
  {
    if KindAt(t, 0, M, x) == Live { LiveKind(t, 0, M, x); }
    if PageLive(t, M, x) {
      var p, k :| (p, k) in LiveBlocks(t, 0, M) && p <= x < p + Pow2(k);
      KindLive(t, 0, M, p, k, x);
    }
  }

  /** An unused aligned region lies inside one free block: this is what maximal merging gives. */
  lemma {:induction false} UnusedIsInFreeBlock(t: Tree, b: nat, h: nat, q: nat, k: nat) returns (o: nat)
    requires Good(t, h) && k <= h && Aligned(b, h) && Aligned(q, k)
    requires b <= q && q + Pow2(k) <= b + Pow2(h)
    requires forall x :: q <= x < q + Pow2(k) ==> KindAt(t, b, h, x) != Live
    ensures k <= o <= h && FreeList(t, b, h, o) != []
  {
    hide KindAt, Coalesced, Settled, LiveBlocks;
    match t
    case Leaf(kind) =>
      LeafKind(kind, b, h, q);
      LeafSettled(t);
      o := h;
    case Node(l, r) =>
      Halves(b, h - 1);
      LeafSettled(t);
      var m := b + Pow2(h - 1);
      if k == h {
        AlignedApart(b, q, h);
        UnusedIsFree(t, b, h);
        assert false;
      } else {
        AlignedDown(m, k, h - 1);
        if q < m {
          NoStraddle(q, m, k);
          forall x {:trigger KindAt(l, b, h - 1, x)} | q <= x < q + Pow2(k) ensures KindAt(l, b, h - 1, x) != Live {
            KindInHalf(t, b, h, m, x);
          }
          o := UnusedIsInFreeBlock(l, b, h - 1, q, k);
        } else {
          forall x {:trigger KindAt(r, m, h - 1, x)} | q <= x < q + Pow2(k) ensures KindAt(r, m, h - 1, x) != Live {
            KindInHalf(t, b, h, m, x);
          }
          o := UnusedIsInFreeBlock(r, m, h - 1, q, k);
        }
      }
  }

  lemma {:induction false} LeafKind(kind: Kind, b: nat, h: nat, x: nat)
    ensures KindAt(Leaf(kind), b, h, x) == kind
  {
  }

  lemma {:induction false} LeafSettled(t: Tree)
    ensures t.Leaf? && Settled(t) ==> t.kind != Pending
    ensures t.Node? && Settled(t) ==> Settled(t.left) && Settled(t.right)
    ensures t.Node? && Coalesced(t) ==> Coalesced(t.left) && Coalesced(t.right)
  {
  }

  lemma KindInHalf(t: Tree, b: nat, h: nat, m: nat, x: nat)
    requires Fits(t, h) && t.Node? && m == b + Pow2(h - 1)
    ensures KindAt(t, b, h, x) == if x < m then KindAt(t.left, b, h - 1, x) else KindAt(t.right, m, h - 1, x)
  {
  }

  lemma UnusedIsFree(t: Tree, b: nat, h: nat)
    requires Good(t, h) && forall x :: b <= x < b + Pow2(h) ==> KindAt(t, b, h, x) != Live
    ensures t == Leaf(Free)
  {
    hide KindAt;
    forall x ensures x !in LiveBlocks(t, b, h) {
      if x in LiveBlocks(t, b, h) {
        LiveBlocksRange(t, b, h);
        KindLive(t, b, h, x.0, x.1, x.0);
      }
    }
    NothingLiveIsFree(t, b, h);
  }

  lemma {:induction false} AlignedApart(b: nat, q: nat, h: nat)
    requires b <= q && q + Pow2(h) <= b + Pow2(h)
    ensures q == b
  {
  }

  lemma {:induction false} FreeBlockGivesRoom(t: Tree, M: nat, k: nat, o: nat)
    requires Fits(t, M) && k <= o <= M && FreeList(t, 0, M, o) != []
    ensures RoomFor(t, M, k)
  {
    FirstIsRegion(t, M, o);
    var q := FreeList(t, 0, M, o)[0];
    ZeroAligned(M);
    NodeRange(t, 0, M, q, o);
    AlignedDown(q, k, o);
    AlignedIsDivisible(q, k);
    Pow2Monotone(k, o);
    forall x | q <= x < q + Pow2(k) ensures !PageLive(t, M, x) {
      SubPageAt(t, 0, M, q, o, x);
      PageLiveKind(t, M, x);
    }
  }

  lemma {:induction false} Pow2Monotone(k: nat, o: nat)
    requires k <= o
    ensures Pow2(k) <= Pow2(o)
  {
    if k < o { Pow2Monotone(k, o - 1); }
  }

  /** A request fails exactly when it exceeds the whole memory or no aligned region of the needed
      order is entirely unused: the allocator never fails for fragmentation it could have avoided
      merging. */
  lemma AllocComplete(t: Tree, M: nat, k: nat)
    requires Good(t, M)
    ensures Alloc(t, M, k).0 == None <==> k > M || !RoomFor(t, M, k)
  {
    if k <= M {
      if RoomFor(t, M, k) {
        var q: nat :|
          q % Pow2(k) == 0 && q + Pow2(k) <= Pow2(M) && forall x :: q <= x < q + Pow2(k) ==> !PageLive(t, M, x);
        AlignedIsDivisible(q, k);
        ZeroAligned(M);
        forall x | q <= x < q + Pow2(k) ensures KindAt(t, 0, M, x) != Live {
          PageLiveKind(t, M, x);
        }
        var o := UnusedIsInFreeBlock(t, 0, M, q, k);
      }
      if FirstFit(t, M, k) <= M {
        FreeBlockGivesRoom(t, M, k, FirstFit(t, M, k));
      }
    }
  }

  /** The block served is the lowest free block among those of the smallest sufficient order. */
  lemma {:induction false} AllocTakesLowest(t: Tree, M: nat, k: nat, p: nat, j: nat)
    requires Good(t, M) && Alloc(t, M, k).0.Some? && k <= j <= M && p in FreeList(t, 0, M, j)
    ensures FirstFit(t, M, k) <= j
    ensures j == FirstFit(t, M, k) ==> Alloc(t, M, k).0.value <= p
  {
    FreeListSorted(t, 0, M, j);
  }

  // ---------- Tiling ----------

  /** `s` covers `[from, to)` with adjacent blocks, each aligned to its own size. */
  ghost predicate Tiles(s: seq<(nat, nat, Kind)>, from: nat, to: nat) {
    if s == [] then from == to
    else s[0].0 == from && from % Pow2(s[0].1) == 0 && Tiles(s[1..], from + Pow2(s[0].1), to)
  }

  lemma {:induction false} TilesConcat(s1: seq<(nat, nat, Kind)>, s2: seq<(nat, nat, Kind)>, from: nat,
      mid: nat, to: nat)
    requires Tiles(s1, from, mid) && Tiles(s2, mid, to)
    ensures Tiles(s1 + s2, from, to)
  {
    if s1 == [] {
      assert s1 + s2 == s2;
    } else {
      assert (s1 + s2)[1..] == s1[1..] + s2;
      TilesConcat(s1[1..], s2, from + Pow2(s1[0].1), mid, to);
    }
  }

  /** Free and live blocks together tile memory: aligned, disjoint and without gaps. */
  lemma {:induction false} BlocksTile(t: Tree, b: nat, h: nat)
    requires Fits(t, h) && Aligned(b, h)
    ensures Tiles(Blocks(t, b, h), b, b + Pow2(h))
  {
    hide Tiles, Aligned;
    match t
    case Leaf(kind) =>
      AlignedIsDivisible(b, h);
      OneTile(b, h, kind);
    case Node(l, r) =>
      var m := b + Pow2(h - 1);
      Halves(b, h - 1);
      BlocksTile(l, b, h - 1);
      BlocksTile(r, m, h - 1);
      TilesConcat(Blocks(l, b, h - 1), Blocks(r, m, h - 1), b, m, b + Pow2(h));
  }

  lemma {:induction false} OneTile(b: nat, h: nat, kind: Kind)
    requires b % Pow2(h) == 0
    ensures Tiles([(b, h, kind)], b, b + Pow2(h))
  {
    assert [(b, h, kind)][1..] == [];
  }

  /** The tiles are the free lists and the live blocks. */
  lemma {:induction false} BlocksAreLists(t: Tree, b: nat, h: nat, p: nat, k: nat)
    requires Fits(t, h)
    ensures (p, k, Free) in Blocks(t, b, h) <==> p in FreeList(t, b, h, k)
    ensures (p, k, Live) in Blocks(t, b, h) <==> (p, k) in LiveBlocks(t, b, h)
  {
    if t.Node? {
      BlocksAreLists(t.left, b, h - 1, p, k);
      BlocksAreLists(t.right, b + Pow2(h - 1), h - 1, p, k);
    }
  }

  // ---------- Runs ----------

  datatype Request = AllocateOrder(order: nat) | FreePage(page: nat)

  /** The division of memory after a run that started with all of it free. Freeing anything but the
      address of a live block is refused, as by the simulator. */
  function Run(M: nat, ops: seq<Request>): (t: Tree)
    ensures Fits(t, M)
  {
    if ops == [] then Leaf(Free) else
      var t := Run(M, ops[..|ops| - 1]);
      match ops[|ops| - 1]
      case AllocateOrder(k) => Alloc(t, M, k).1
      case FreePage(p) => if IsLive(t, M, p) then Release(t, M, p) else t
  }

  /** Every reachable state is coalesced, its blocks tile memory, and its free lists are
      address-ordered. */
  lemma {:induction false} RunGood(M: nat, ops: seq<Request>)
    ensures Good(Run(M, ops), M)
    ensures Tiles(Blocks(Run(M, ops), 0, M), 0, Pow2(M))
    ensures forall k :: StrictlyIncreasing(FreeList(Run(M, ops), 0, M, k))
  {
    if ops != [] {
      var t := Run(M, ops[..|ops| - 1]);
      RunGood(M, ops[..|ops| - 1]);
      match ops[|ops| - 1] {
        case AllocateOrder(k) => if Alloc(t, M, k).0.Some? { AllocLaw(t, M, k); }
        case FreePage(p) => if IsLive(t, M, p) { ReleaseLaw(t, M, p); }
      }
    }
    ZeroAligned(M);
    BlocksTile(Run(M, ops), 0, M);
    forall k ensures StrictlyIncreasing(FreeList(Run(M, ops), 0, M, k)) {
      FreeListSorted(Run(M, ops), 0, M, k);
    }
  }

  /** Two runs that leave the same blocks allocated leave the same free lists. */
  lemma {:induction false} RunsAgree(M: nat, ops1: seq<Request>, ops2: seq<Request>)
    requires LiveBlocks(Run(M, ops1), 0, M) == LiveBlocks(Run(M, ops2), 0, M)
    ensures forall k :: FreeList(Run(M, ops1), 0, M, k) == FreeList(Run(M, ops2), 0, M, k)
  {
    RunGood(M, ops1);
    RunGood(M, ops2);
    HistoryIndependence(Run(M, ops1), Run(M, ops2), 0, M);
  }

  /** The run that frees the given pages one after the other. */
  function Frees(ps: seq<nat>): seq<Request> {
    seq(|ps|, i requires 0 <= i < |ps| => FreePage(ps[i]))
  }

  /** Freeing page `p` takes the live block there, if any, out of the live blocks. */
  lemma FreeOne(t: Tree, M: nat, p: nat)
    requires Good(t, M)
    ensures forall b :: b in LiveBlocks(if IsLive(t, M, p) then Release(t, M, p) else t, 0, M)
              <==> b in LiveBlocks(t, 0, M) && b.0 != p
  {
    hide LiveBlocks, Release, PageAt;
    forall k ensures (p, k) in LiveBlocks(t, 0, M) <==> IsLive(t, M, p) && k == PageAt(t, 0, M, p).order {
      LiveHere(t, M, p, k);
    }
    if IsLive(t, M, p) { ReleaseLaw(t, M, p); }
  }

  lemma {:induction false} LiveHere(t: Tree, M: nat, p: nat, k: nat)
    requires Fits(t, M)
    ensures (p, k) in LiveBlocks(t, 0, M) <==> IsLive(t, M, p) && k == PageAt(t, 0, M, p).order
  {
    hide LiveBlocks, PageAt;
    LiveBlocksAreHeads(t, 0, M, p, k);
  }

  lemma {:induction false} FreesLive(M: nat, ops: seq<Request>, ps: seq<nat>)
    ensures forall b :: b in LiveBlocks(Run(M, ops + Frees(ps)), 0, M)
              <==> b in LiveBlocks(Run(M, ops), 0, M) && b.0 !in ps
  {
    hide LiveBlocks, Release, IsLive;
    if ps == [] {
      assert ops + Frees(ps) == ops;
    } else {
      var front, p := ps[..|ps| - 1], ps[|ps| - 1];
      FreesLive(M, ops, front);
      var all := ops + Frees(ps);
      assert all[..|all| - 1] == ops + Frees(front) && all[|all| - 1] == FreePage(p);
      RunGood(M, ops + Frees(front));
      FreeOne(Run(M, ops + Frees(front)), M, p);
      assert ps == front + [p];
    }
  }

  /** Freeing all live blocks, in any order and after any run, gives back the initial free lists:
      one block of order `M` at page 0 and nothing else. */
  lemma {:induction false} FreeAllRestores(M: nat, ops: seq<Request>, ps: seq<nat>)
    requires forall b :: b in LiveBlocks(Run(M, ops), 0, M) ==> b.0 in ps
    ensures Run(M, ops + Frees(ps)) == Run(M, [])
    ensures forall k :: FreeList(Run(M, ops + Frees(ps)), 0, M, k) == if k == M then [0] else []
  {
    FreesLive(M, ops, ps);
    RunGood(M, ops + Frees(ps));
    NothingLiveIsFree(Run(M, ops + Frees(ps)), 0, M);
  }
}
