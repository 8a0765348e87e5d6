/** The abstract state of the buddy allocator: how memory is divided into blocks.

    Memory of `2^h` pages is one block, or is split into two halves that are divided in turn.
    Starts and sizes are in pages, orders are relative to the order of a single page. Nothing here
    is known to the allocator itself, which only has its free lists and page records (Buddy.dfy). */
module BuddyTree {
  import opened Powers

  /** `Pending` is a block that is neither allocated nor on a free list yet, as during a merge. */
  datatype Kind = Free | Live | Pending

  datatype Tree = Leaf(kind: Kind) | Node(left: Tree, right: Tree)

  /** What the page at some index is: inside a block, or the first page of a block. */
  datatype Page = Interior | Head(kind: Kind, order: nat)

  /** `t` divides a region of order `h` into blocks of at least one page. */
  predicate Fits(t: Tree, h: nat) {
    t.Node? ==> h > 0 && Fits(t.left, h - 1) && Fits(t.right, h - 1)
  }

  /** No two buddies of the same order are both free. */
  predicate Coalesced(t: Tree) {
    t.Node? ==> !(t.left == Leaf(Free) && t.right == Leaf(Free)) && Coalesced(t.left) && Coalesced(t.right)
  }

  /** No block is waiting to be put on a free list. */
  predicate Settled(t: Tree) {
    match t
    case Leaf(kind) => kind != Pending
    case Node(l, r) => Settled(l) && Settled(r)
  }

  /** The first pages of the free blocks of order `k`, by increasing address. */
  function FreeList(t: Tree, b: nat, h: nat, k: nat): seq<nat>
    requires Fits(t, h)
  {
    match t
    case Leaf(kind) => if kind == Free && h == k then [b] else []
    case Node(l, r) => FreeList(l, b, h - 1, k) + FreeList(r, b + Pow2(h - 1), h - 1, k)
  }

  /** First page and order of every allocated block. */
  function LiveBlocks(t: Tree, b: nat, h: nat): set<(nat, nat)>
    requires Fits(t, h)
  {
    match t
    case Leaf(kind) => if kind == Live then {(b, h)} else {}
    case Node(l, r) => LiveBlocks(l, b, h - 1) + LiveBlocks(r, b + Pow2(h - 1), h - 1)
  }

  /** First page, order and kind of every block, by increasing address. */
  function Blocks(t: Tree, b: nat, h: nat): seq<(nat, nat, Kind)>
    requires Fits(t, h)
  {
    match t
    case Leaf(kind) => [(b, h, kind)]
    case Node(l, r) => Blocks(l, b, h - 1) + Blocks(r, b + Pow2(h - 1), h - 1)
  }

  function PageAt(t: Tree, b: nat, h: nat, x: nat): Page
    requires Fits(t, h)
  {
    match t
    case Leaf(kind) => if x == b then Head(kind, h) else Interior
    case Node(l, r) =>
      if x < b + Pow2(h - 1) then PageAt(l, b, h - 1, x) else PageAt(r, b + Pow2(h - 1), h - 1, x)
  }

  /** The kind of the block that page `x` belongs to. */
  function KindAt(t: Tree, b: nat, h: nat, x: nat): Kind
    requires Fits(t, h)
  {
    match t
    case Leaf(kind) => kind
    case Node(l, r) =>
      if x < b + Pow2(h - 1) then KindAt(l, b, h - 1, x) else KindAt(r, b + Pow2(h - 1), h - 1, x)
  }

  // ---------- The region of order k at page p, as a subtree ----------

  predicate HasNode(t: Tree, b: nat, h: nat, p: nat, k: nat)
    requires Fits(t, h)
    decreases t
  {
    if h == k then p == b
    else
      h > k && t.Node? &&
      if p < b + Pow2(h - 1) then HasNode(t.left, b, h - 1, p, k)
      else HasNode(t.right, b + Pow2(h - 1), h - 1, p, k)
  }

  function Sub(t: Tree, b: nat, h: nat, p: nat, k: nat): (s: Tree)
    requires Fits(t, h) && HasNode(t, b, h, p, k)
    ensures Fits(s, k)
    decreases t
  {
    if h == k then t
    else if p < b + Pow2(h - 1) then Sub(t.left, b, h - 1, p, k)
    else Sub(t.right, b + Pow2(h - 1), h - 1, p, k)
  }

  /** `t` with the region of order `k` at `p` divided as in `n`. */
  function Put(t: Tree, b: nat, h: nat, p: nat, k: nat, n: Tree): (t': Tree)
    requires Fits(t, h) && HasNode(t, b, h, p, k) && Fits(n, k)
    ensures Fits(t', h) && HasNode(t', b, h, p, k) && Sub(t', b, h, p, k) == n
    decreases t
  {
    if h == k then n
    else if p < b + Pow2(h - 1) then Node(Put(t.left, b, h - 1, p, k, n), t.right)
    else Node(t.left, Put(t.right, b + Pow2(h - 1), h - 1, p, k, n))
  }

  /** The free blocks of order `j` to the left of the region, and to its right. */
  function Before(t: Tree, b: nat, h: nat, p: nat, k: nat, j: nat): seq<nat>
    requires Fits(t, h) && HasNode(t, b, h, p, k)
    decreases t
  {
    if h == k then []
    else if p < b + Pow2(h - 1) then Before(t.left, b, h - 1, p, k, j)
    else FreeList(t.left, b, h - 1, j) + Before(t.right, b + Pow2(h - 1), h - 1, p, k, j)
  }

  function After(t: Tree, b: nat, h: nat, p: nat, k: nat, j: nat): seq<nat>
    requires Fits(t, h) && HasNode(t, b, h, p, k)
    decreases t
  {
    if h == k then []
    else if p < b + Pow2(h - 1) then
      After(t.left, b, h - 1, p, k, j) + FreeList(t.right, b + Pow2(h - 1), h - 1, j)
    else After(t.right, b + Pow2(h - 1), h - 1, p, k, j)
  }

  /** How the other half of the region's parent is divided. */
  function Sibling(t: Tree, b: nat, h: nat, p: nat, k: nat): (s: Tree)
    requires Fits(t, h) && HasNode(t, b, h, p, k) && k < h
    ensures Fits(s, k)
    decreases t
  {
    if p < b + Pow2(h - 1) then
      if h - 1 == k then t.right else Sibling(t.left, b, h - 1, p, k)
    else
      if h - 1 == k then t.left else Sibling(t.right, b + Pow2(h - 1), h - 1, p, k)
  }

  lemma {:induction false} NodeRange(t: Tree, b: nat, h: nat, p: nat, k: nat)
    requires Fits(t, h) && HasNode(t, b, h, p, k)
    ensures k <= h && b <= p && p + Pow2(k) <= b + Pow2(h)
    ensures Aligned(b, h) ==> Aligned(p, k)
    decreases t
  {
    if h > k {
      if p < b + Pow2(h - 1) {
        NodeRange(t.left, b, h - 1, p, k);
      } else {
        NodeRange(t.right, b + Pow2(h - 1), h - 1, p, k);
      }
      if Aligned(b, h) { Halves(b, h - 1); }
    }
  }

  lemma {:induction false} PutSub(t: Tree, b: nat, h: nat, p: nat, k: nat)
    requires Fits(t, h) && HasNode(t, b, h, p, k)
    ensures Put(t, b, h, p, k, Sub(t, b, h, p, k)) == t
    decreases t
  {
    if h > k {
      if p < b + Pow2(h - 1) {
        PutSub(t.left, b, h - 1, p, k);
      } else {
        PutSub(t.right, b + Pow2(h - 1), h - 1, p, k);
      }
    }
  }

  /** Rewriting part of a region just rewritten is one rewrite. */
  lemma {:induction false} PutPut(t: Tree, b: nat, h: nat, p: nat, k: nat, n: Tree, q: nat, j: nat, m: Tree)
    requires Fits(t, h) && HasNode(t, b, h, p, k) && Fits(n, k)
    requires HasNode(n, p, k, q, j) && Fits(m, j)
    ensures HasNode(Put(t, b, h, p, k, n), b, h, q, j)
    ensures Sub(Put(t, b, h, p, k, n), b, h, q, j) == Sub(n, p, k, q, j)
    ensures Put(Put(t, b, h, p, k, n), b, h, q, j, m) == Put(t, b, h, p, k, Put(n, p, k, q, j, m))
    decreases t
  {
    NodeRange(n, p, k, q, j);
    NodeRange(t, b, h, p, k);
    if h > k {
      if p < b + Pow2(h - 1) {
        NodeRange(t.left, b, h - 1, p, k);
        PutPut(t.left, b, h - 1, p, k, n, q, j, m);
      } else {
        PutPut(t.right, b + Pow2(h - 1), h - 1, p, k, n, q, j, m);
      }
    }
  }

  /** A rewrite changes each free list only between the blocks before and after the region. */
  lemma {:induction false} PutFreeList(t: Tree, b: nat, h: nat, p: nat, k: nat, n: Tree, j: nat)
    requires Fits(t, h) && HasNode(t, b, h, p, k) && Fits(n, k)
    ensures FreeList(Put(t, b, h, p, k, n), b, h, j)
         == Before(t, b, h, p, k, j) + FreeList(n, p, k, j) + After(t, b, h, p, k, j)
    decreases t
  {
    if h > k {
      if p < b + Pow2(h - 1) {
        PutFreeList(t.left, b, h - 1, p, k, n, j);
      } else {
        PutFreeList(t.right, b + Pow2(h - 1), h - 1, p, k, n, j);
      }
    }
  }

  lemma {:induction false} FreeListSplit(t: Tree, b: nat, h: nat, p: nat, k: nat, j: nat)
    requires Fits(t, h) && HasNode(t, b, h, p, k)
    ensures FreeList(t, b, h, j)
         == Before(t, b, h, p, k, j) + FreeList(Sub(t, b, h, p, k), p, k, j) + After(t, b, h, p, k, j)
  {
    PutSub(t, b, h, p, k);
    PutFreeList(t, b, h, p, k, Sub(t, b, h, p, k), j);
  }

  lemma {:induction false} FreeListRange(t: Tree, b: nat, h: nat, k: nat)
    requires Fits(t, h)
    ensures forall x :: x in FreeList(t, b, h, k) ==> b <= x && x + Pow2(k) <= b + Pow2(h)
    ensures k > h ==> FreeList(t, b, h, k) == []
  {
    if t.Node? {
      FreeListRange(t.left, b, h - 1, k);
      FreeListRange(t.right, b + Pow2(h - 1), h - 1, k);
    }
  }

  lemma {:induction false} BeforeAfterRange(t: Tree, b: nat, h: nat, p: nat, k: nat, j: nat)
    requires Fits(t, h) && HasNode(t, b, h, p, k)
    ensures forall x :: x in Before(t, b, h, p, k, j) ==> x < p
    ensures forall x :: x in After(t, b, h, p, k, j) ==> p + Pow2(k) <= x
    decreases t
  {
    NodeRange(t, b, h, p, k);
    if h > k {
      FreeListRange(t.left, b, h - 1, j);
      FreeListRange(t.right, b + Pow2(h - 1), h - 1, j);
      if p < b + Pow2(h - 1) {
        NodeRange(t.left, b, h - 1, p, k);
        BeforeAfterRange(t.left, b, h - 1, p, k, j);
      } else {
        BeforeAfterRange(t.right, b + Pow2(h - 1), h - 1, p, k, j);
      }
    }
  }

  /** A rewrite changes what is known of the pages of the region only. */
  lemma {:induction false} PutPageAt(t: Tree, b: nat, h: nat, p: nat, k: nat, n: Tree, x: nat)
    requires Fits(t, h) && HasNode(t, b, h, p, k) && Fits(n, k) && b <= x < b + Pow2(h)
    ensures PageAt(Put(t, b, h, p, k, n), b, h, x)
         == if p <= x < p + Pow2(k) then PageAt(n, p, k, x) else PageAt(t, b, h, x)
    decreases t
  {
    NodeRange(t, b, h, p, k);
    if h > k {
      if p < b + Pow2(h - 1) {
        NodeRange(t.left, b, h - 1, p, k);
        if x < b + Pow2(h - 1) { PutPageAt(t.left, b, h - 1, p, k, n, x); }
      } else if b + Pow2(h - 1) <= x {
        PutPageAt(t.right, b + Pow2(h - 1), h - 1, p, k, n, x);
      }
    }
  }

  /** The first page of a region is always the first page of a block, and that block lies in the
      region; it fills the region exactly when the region is not split. */
  lemma {:induction false} FirstPageIsHead(t: Tree, b: nat, h: nat)
    requires Fits(t, h)
    ensures PageAt(t, b, h, b).Head? && PageAt(t, b, h, b).order <= h
    ensures t.Leaf? <==> PageAt(t, b, h, b).order == h
    ensures t.Leaf? ==> PageAt(t, b, h, b).kind == t.kind
  {
    if t.Node? { FirstPageIsHead(t.left, b, h - 1); }
  }

  lemma {:induction false} SubPageAt(t: Tree, b: nat, h: nat, p: nat, k: nat, x: nat)
    requires Fits(t, h) && HasNode(t, b, h, p, k) && p <= x < p + Pow2(k)
    ensures PageAt(t, b, h, x) == PageAt(Sub(t, b, h, p, k), p, k, x)
    ensures KindAt(t, b, h, x) == KindAt(Sub(t, b, h, p, k), p, k, x)
    decreases t
  {
    if h > k {
      if p < b + Pow2(h - 1) {
        NodeRange(t.left, b, h - 1, p, k);
        SubPageAt(t.left, b, h - 1, p, k, x);
      } else {
        NodeRange(t.right, b + Pow2(h - 1), h - 1, p, k);
        SubPageAt(t.right, b + Pow2(h - 1), h - 1, p, k, x);
      }
    }
  }

  /** A page recorded as the head of a block is the root of a region holding just that block. */
  lemma {:induction false} HeadIsLeaf(t: Tree, b: nat, h: nat, p: nat)
    requires Fits(t, h) && b <= p < b + Pow2(h) && PageAt(t, b, h, p).Head?
    ensures var k := PageAt(t, b, h, p).order;
            HasNode(t, b, h, p, k) && Sub(t, b, h, p, k) == Leaf(PageAt(t, b, h, p).kind)
  {
    if t.Node? {
      if p < b + Pow2(h - 1) {
        HeadIsLeaf(t.left, b, h - 1, p);
        NodeRange(t.left, b, h - 1, p, PageAt(t, b, h, p).order);
      } else {
        HeadIsLeaf(t.right, b + Pow2(h - 1), h - 1, p);
        NodeRange(t.right, b + Pow2(h - 1), h - 1, p, PageAt(t, b, h, p).order);
      }
    }
  }

  /** A free list holds exactly the heads of free blocks of its order. */
  lemma {:induction false} FreeListIsHeads(t: Tree, b: nat, h: nat, p: nat, k: nat)
    requires Fits(t, h) && b <= p < b + Pow2(h)
    ensures p in FreeList(t, b, h, k) <==> PageAt(t, b, h, p) == Head(Free, k)
  {
    if t.Node? {
      var m := b + Pow2(h - 1);
      FreeListRange(t.left, b, h - 1, k);
      FreeListRange(t.right, m, h - 1, k);
      if p < m {
        FreeListIsHeads(t.left, b, h - 1, p, k);
      } else {
        FreeListIsHeads(t.right, m, h - 1, p, k);
      }
    }
  }

  ghost predicate StrictlyIncreasing(s: seq<nat>) {
    forall i, j :: 0 <= i < j < |s| ==> s[i] < s[j]
  }

  /** Every free list is strictly address-ordered. */
  lemma {:induction false} FreeListSorted(t: Tree, b: nat, h: nat, k: nat)
    requires Fits(t, h)
    ensures StrictlyIncreasing(FreeList(t, b, h, k))
  {
    if t.Node? {
      FreeListSorted(t.left, b, h - 1, k);
      FreeListSorted(t.right, b + Pow2(h - 1), h - 1, k);
      FreeListRange(t.left, b, h - 1, k);
      FreeListRange(t.right, b + Pow2(h - 1), h - 1, k);
      var s1, s2 := FreeList(t.left, b, h - 1, k), FreeList(t.right, b + Pow2(h - 1), h - 1, k);
      forall i, j | 0 <= i < j < |s1 + s2| ensures (s1 + s2)[i] < (s1 + s2)[j] {
        if i < |s1| <= j {
          assert s1[i] in s1 && s2[j - |s1|] in s2;
        }
      }
    }
  }

  // ---------- Buddies ----------

  /** A region of a half is a region of the whole. */
  lemma InLeft(t: Tree, b: nat, h: nat, q: nat, j: nat)
    requires Fits(t, h) && t.Node? && HasNode(t.left, b, h - 1, q, j)
    ensures HasNode(t, b, h, q, j) && Sub(t, b, h, q, j) == Sub(t.left, b, h - 1, q, j)
  {
    NodeRange(t.left, b, h - 1, q, j);
  }

  lemma InRight(t: Tree, b: nat, h: nat, q: nat, j: nat)
    requires Fits(t, h) && t.Node? && HasNode(t.right, b + Pow2(h - 1), h - 1, q, j)
    ensures HasNode(t, b, h, q, j) && Sub(t, b, h, q, j) == Sub(t.right, b + Pow2(h - 1), h - 1, q, j)
  {
    NodeRange(t.right, b + Pow2(h - 1), h - 1, q, j);
  }

  /** The regions of order `k` at `p` and `q` are the halves of the one of order `k + 1` at `u`. */
  ghost predicate AreHalves(t: Tree, b: nat, h: nat, p: nat, q: nat, u: nat, k: nat)
    requires Fits(t, h)
  {
    && HasNode(t, b, h, p, k) && HasNode(t, b, h, q, k) && HasNode(t, b, h, u, k + 1)
    && u == (if q < p then q else p)
    && (if p < q then q == p + Pow2(k) else p == q + Pow2(k))
    && var s, w := Sub(t, b, h, p, k), Sub(t, b, h, q, k);
       Sub(t, b, h, u, k + 1) == (if p < q then Node(s, w) else Node(w, s))
  }

  lemma HalvesOf(t: Tree, b: nat, k: nat)
    requires Fits(t, k + 1) && t.Node?
    ensures AreHalves(t, b, k + 1, b, b + Pow2(k), b, k)
    ensures AreHalves(t, b, k + 1, b + Pow2(k), b, b, k)
    ensures Sub(t, b, k + 1, b, k) == t.left && Sub(t, b, k + 1, b + Pow2(k), k) == t.right
  {
    InLeft(t, b, k + 1, b, k);
    InRight(t, b, k + 1, b + Pow2(k), k);
  }

  lemma LiftLeft(t: Tree, b: nat, h: nat, p: nat, q: nat, u: nat, k: nat)
    requires Fits(t, h) && t.Node? && AreHalves(t.left, b, h - 1, p, q, u, k)
    ensures AreHalves(t, b, h, p, q, u, k) && Sub(t, b, h, q, k) == Sub(t.left, b, h - 1, q, k)
  {
    hide HasNode, Sub;
    InLeft(t, b, h, p, k);
    InLeft(t, b, h, q, k);
    InLeft(t, b, h, u, k + 1);
  }

  lemma LiftRight(t: Tree, b: nat, h: nat, p: nat, q: nat, u: nat, k: nat)
    requires Fits(t, h) && t.Node? && AreHalves(t.right, b + Pow2(h - 1), h - 1, p, q, u, k)
    ensures AreHalves(t, b, h, p, q, u, k) && Sub(t, b, h, q, k) == Sub(t.right, b + Pow2(h - 1), h - 1, q, k)
  {
    hide HasNode, Sub;
    InRight(t, b, h, p, k);
    InRight(t, b, h, q, k);
    InRight(t, b, h, u, k + 1);
  }

  /** Flipping bit `k` of the first page of a region of order `k` gives the other half of the
      region's parent; the parent consists of the two. */
  lemma {:induction false} BuddyRegion(t: Tree, b: nat, h: nat, p: nat, k: nat)
    requires Fits(t, h) && HasNode(t, b, h, p, k) && k < h && Aligned(b, h)
    ensures var q := FlipBit(p, k);
            AreHalves(t, b, h, p, q, if q < p then q else p, k) && Sub(t, b, h, q, k) == Sibling(t, b, h, p, k)
    decreases t
  {
    Halves(b, h - 1);
    var q := FlipBit(p, k);
    var u := if q < p then q else p;
    if h - 1 == k {
      HalvesOf(t, b, k);
    } else {
      if p < b + Pow2(h - 1) {
        BuddyRegion(t.left, b, h - 1, p, k);
        hide AreHalves, Aligned, FlipBit;
        LiftLeft(t, b, h, p, q, u, k);
      } else {
        BuddyRegion(t.right, b + Pow2(h - 1), h - 1, p, k);
        hide AreHalves, Aligned, FlipBit;
        LiftRight(t, b, h, p, q, u, k);
      }
    }
  }

  /** The page in buddy position is the first page of a current block no larger than this one; it
      is free with the same order exactly when the two can be merged. This is why a merge decided
      on page records never looks at the stale record of an interior page. */
  lemma {:induction false} BuddyIsHead(t: Tree, b: nat, h: nat, p: nat, k: nat)
    requires Fits(t, h) && HasNode(t, b, h, p, k) && k < h && Aligned(b, h)
    ensures var q := FlipBit(p, k);
            && b <= q < b + Pow2(h)
            && PageAt(t, b, h, q).Head? && PageAt(t, b, h, q).order <= k
            && (PageAt(t, b, h, q) == Head(Free, k) <==> Sibling(t, b, h, p, k) == Leaf(Free))
  {
    BuddyRegion(t, b, h, p, k);
    var q := FlipBit(p, k);
    NodeRange(t, b, h, q, k);
    SubPageAt(t, b, h, q, k, q);
    FirstPageIsHead(Sub(t, b, h, q, k), q, k);
  }

  // ---------- Coalescing ----------

  function Join(l: Tree, r: Tree): Tree {
    if l == Leaf(Free) && r == Leaf(Free) then Leaf(Free) else Node(l, r)
  }

  /** `t` with every pending block freed and every pair of free buddies merged. */
  function Coalesce(t: Tree): Tree {
    match t
    case Leaf(kind) => if kind == Pending then Leaf(Free) else t
    case Node(l, r) => Join(Coalesce(l), Coalesce(r))
  }

  lemma {:induction false} CoalesceFits(t: Tree, h: nat)
    requires Fits(t, h)
    ensures Fits(Coalesce(t), h) && Coalesced(Coalesce(t)) && Settled(Coalesce(t))
  {
    if t.Node? {
      CoalesceFits(t.left, h - 1);
      CoalesceFits(t.right, h - 1);
    }
  }

  lemma {:induction false} CoalescedIsFixed(t: Tree)
    requires Coalesced(t) && Settled(t)
    ensures Coalesce(t) == t
  {
    if t.Node? {
      CoalescedIsFixed(t.left);
      CoalescedIsFixed(t.right);
    }
  }

  /** Coalescing sees a rewritten region only through its own coalesced form. */
  lemma {:induction false} CoalescePut(t: Tree, b: nat, h: nat, p: nat, k: nat, n: Tree)
    requires Fits(t, h) && HasNode(t, b, h, p, k) && Fits(n, k)
    requires Coalesce(n) == Coalesce(Sub(t, b, h, p, k))
    ensures Coalesce(Put(t, b, h, p, k, n)) == Coalesce(t)
    decreases t
  {
    if h > k {
      if p < b + Pow2(h - 1) {
        CoalescePut(t.left, b, h - 1, p, k, n);
      } else {
        CoalescePut(t.right, b + Pow2(h - 1), h - 1, p, k, n);
      }
    }
  }

  /** A rewrite keeps buddies apart unless it makes a free region beside a free one. */
  lemma {:induction false} PutCoalesced(t: Tree, b: nat, h: nat, p: nat, k: nat, n: Tree)
    requires Fits(t, h) && HasNode(t, b, h, p, k) && Fits(n, k)
    requires Coalesced(t) && Coalesced(n)
    requires n == Leaf(Free) && k < h ==> Sibling(t, b, h, p, k) != Leaf(Free)
    ensures Coalesced(Put(t, b, h, p, k, n))
    decreases t
  {
    if h > k {
      if p < b + Pow2(h - 1) {
        PutCoalesced(t.left, b, h - 1, p, k, n);
      } else {
        PutCoalesced(t.right, b + Pow2(h - 1), h - 1, p, k, n);
      }
    }
  }

  /** `t` has no pending block outside the region of order `k` at `p`. */
  predicate SettledBut(t: Tree, b: nat, h: nat, p: nat, k: nat)
    requires Fits(t, h) && HasNode(t, b, h, p, k)
    decreases t
  {
    if h == k then true
    else if p < b + Pow2(h - 1) then SettledBut(t.left, b, h - 1, p, k) && Settled(t.right)
    else Settled(t.left) && SettledBut(t.right, b + Pow2(h - 1), h - 1, p, k)
  }

  lemma {:induction false} SettledSettlesBut(t: Tree, b: nat, h: nat, p: nat, k: nat)
    requires Fits(t, h) && HasNode(t, b, h, p, k) && Settled(t)
    ensures SettledBut(t, b, h, p, k) && Settled(Sub(t, b, h, p, k))
    decreases t
  {
    if h > k {
      if p < b + Pow2(h - 1) {
        SettledSettlesBut(t.left, b, h - 1, p, k);
      } else {
        SettledSettlesBut(t.right, b + Pow2(h - 1), h - 1, p, k);
      }
    }
  }

  lemma {:induction false} PutSettled(t: Tree, b: nat, h: nat, p: nat, k: nat, n: Tree)
    requires Fits(t, h) && HasNode(t, b, h, p, k) && Fits(n, k) && SettledBut(t, b, h, p, k)
    ensures SettledBut(Put(t, b, h, p, k, n), b, h, p, k)
    ensures Settled(n) ==> Settled(Put(t, b, h, p, k, n))
    decreases t
  {
    if h > k {
      if p < b + Pow2(h - 1) {
        PutSettled(t.left, b, h - 1, p, k, n);
      } else {
        PutSettled(t.right, b + Pow2(h - 1), h - 1, p, k, n);
      }
    }
  }

  /** The region a block and its buddy make up. */
  lemma WiderNode(t: Tree, b: nat, h: nat, p: nat, k: nat)
    requires Fits(t, h) && HasNode(t, b, h, p, k) && k < h && Aligned(b, h)
    ensures HasNode(t, b, h, if FlipBit(p, k) < p then FlipBit(p, k) else p, k + 1)
  {
    BuddyRegion(t, b, h, p, k);
  }

  /** Nothing pending outside a region means nothing pending outside its parent. */
  lemma {:induction false} SettledButWider(t: Tree, b: nat, h: nat, p: nat, k: nat)
    requires Fits(t, h) && HasNode(t, b, h, p, k) && k < h && Aligned(b, h) && SettledBut(t, b, h, p, k)
    ensures var u := if FlipBit(p, k) < p then FlipBit(p, k) else p;
            HasNode(t, b, h, u, k + 1) && SettledBut(t, b, h, u, k + 1)
    decreases t
  {
    hide AreHalves;
    var u := if FlipBit(p, k) < p then FlipBit(p, k) else p;
    WiderNode(t, b, h, p, k);
    Halves(b, h - 1);
    hide FlipBit, Settled, Aligned;
    if h - 1 > k {
      if p < b + Pow2(h - 1) {
        SettledButWider(t.left, b, h - 1, p, k);
        NodeRange(t.left, b, h - 1, u, k + 1);
      } else {
        SettledButWider(t.right, b + Pow2(h - 1), h - 1, p, k);
        NodeRange(t.right, b + Pow2(h - 1), h - 1, u, k + 1);
      }
    }
  }
}
