/** The contents of a sparse array, as a sequence of entries by increasing index and as a finite map. */
module SparseEntries {

  import opened Common

  /** A null value is `None`. */
  type Value = Option<string>
  type Entry = (int, Value)

  ghost predicate Ascending(e: seq<Entry>) {
    forall j, k :: 0 <= j < k < |e| ==> e[j].0 < e[k].0
  }

  function ToMap(e: seq<Entry>): map<int, Value> {
    if e == [] then map[] else ToMap(e[1..])[e[0].0 := e[0].1]
  }

  /** Position of the first entry with an index of at least `i`. */
  function Rank(e: seq<Entry>, i: int): (r: nat)
    ensures r <= |e|
    ensures forall k :: 0 <= k < r ==> e[k].0 < i
    ensures r < |e| ==> e[r].0 >= i
  {
    if e == [] || e[0].0 >= i then 0 else 1 + Rank(e[1..], i)
  }

  lemma {:induction false} RankIs(e: seq<Entry>, i: int, r: nat)
    requires Ascending(e) && r <= |e|
    requires r > 0 ==> e[r - 1].0 < i
    requires r < |e| ==> e[r].0 >= i
    ensures Rank(e, i) == r
  {
    forall k | 0 <= k < r ensures e[k].0 < i { }
  }

  predicate Present(e: seq<Entry>, i: int) {
    Rank(e, i) < |e| && e[Rank(e, i)].0 == i
  }

  function PutAt(e: seq<Entry>, k: nat, x: Entry): seq<Entry>
    requires k <= |e|
  {
    e[..k] + [x] + e[k..]
  }

  /** What `max_index` is. */
  function MaxIndex(e: seq<Entry>): int {
    if e == [] then -1 else e[|e| - 1].0
  }

  /** What `array_insert` does; an empty array takes no negative index. */
  function Insert(e: seq<Entry>, i: int, v: Value): seq<Entry> {
    var r := Rank(e, i);
    if e == [] && i < 0 then e
    else if Present(e, i) then e[r := (i, v)]
    else PutAt(e, r, (i, v))
  }

  function Remove(e: seq<Entry>, i: int): seq<Entry> {
    var r := Rank(e, i);
    if Present(e, i) then e[..r] + e[r + 1..] else e
  }

  /** Indices moved by `n`. */
  function Renumber(e: seq<Entry>, n: int): (r: seq<Entry>)
    ensures |r| == |e| && forall k :: 0 <= k < |e| ==> r[k] == (e[k].0 + n, e[k].1)
  {
    seq(|e|, k requires 0 <= k < |e| => (e[k].0 + n, e[k].1))
  }

  /** What `array_shift` leaves. */
  function Shift(e: seq<Entry>, n: int): seq<Entry> {
    if n <= 0 then e else if n >= |e| then [] else Renumber(e[n..], -n)
  }

  /** What `array_rshift` leaves. */
  function RShift(e: seq<Entry>, n: int, s: Value): seq<Entry> {
    if n <= 0 then e else (if s == None then [] else [(0, s)]) + Renumber(e, n)
  }

  lemma InsertNowhere(i: int, v: Value)
    requires i < 0
    ensures Insert([], i, v) == []
  {
  }

  lemma {:induction false} LookupFound(e: seq<Entry>, i: int, k: nat)
    requires Ascending(e) && k < |e| && e[k].0 == i
    ensures i in ToMap(e) && ToMap(e)[i] == e[k].1
    ensures Remove(e, i) == e[..k] + e[k + 1..]
  {
    ToMapValue(e, k);
    RankIs(e, i, k);
  }

  lemma {:induction false} LookupNone(e: seq<Entry>, i: int)
    requires Ascending(e) && forall k :: 0 <= k < |e| ==> e[k].0 != i
    ensures i !in ToMap(e) && Remove(e, i) == e
  {
    ToMapKeys(e, i);
  }

  /** How the largest index changes when entry `k` goes. */
  lemma MaxIndexWithout(e: seq<Entry>, k: nat)
    requires Ascending(e) && k < |e|
    ensures MaxIndex(e[..k] + e[k + 1..])
         == if e[k].0 == MaxIndex(e) then (if k > 0 then e[k - 1].0 else -1) else MaxIndex(e)
  {
    if k == |e| - 1 {
      assert e[..k] + e[k + 1..] == e[..k];
    } else {
      assert (e[..k] + e[k + 1..])[|e| - 2] == e[|e| - 1];
    }
  }

  lemma MaxIndexAtEnd(e: seq<Entry>, x: Entry)
    ensures MaxIndex(PutAt(e, |e|, x)) == x.0 && |PutAt(e, |e|, x)| == |e| + 1
  {
  }

  /** Where the loops over the elements come out. */
  lemma InsertFound(e: seq<Entry>, i: int, v: Value, r: nat)
    requires Ascending(e) && r <= |e|
    requires r > 0 ==> e[r - 1].0 < i
    requires r < |e| ==> e[r].0 >= i
    requires e != [] || i >= 0
    ensures Insert(e, i, v) == if r < |e| && e[r].0 == i then e[r := (i, v)] else PutAt(e, r, (i, v))
    ensures Ascending(Insert(e, i, v))
  {
    RankIs(e, i, r);
    InsertIsUpdate(e, i, v);
  }

  /** The largest index stays when an entry is put before or in place of entry `k`. */
  lemma InsertInsideCount(e: seq<Entry>, i: int, v: Value, k: nat)
    requires Ascending(e) && k < |e| && e[k].0 >= i && (k > 0 ==> e[k - 1].0 < i)
    ensures MaxIndex(Insert(e, i, v)) == MaxIndex(e)
    ensures |Insert(e, i, v)| == if e[k].0 == i then |e| else |e| + 1
  {
    hide Insert;
    InsertFound(e, i, v, k);
    var f := PutAt(e, k, (i, v));
    assert f[|e|] == e[|e| - 1];
  }

  /** The pieces `array_shift` and `array_rshift` put together. */
  lemma ShiftParts(e: seq<Entry>, n: int)
    requires 0 < n < |e|
    ensures var f := e[..0] + e[n..]; f[..0] + Renumber(f[0..], -n) == Shift(e, n)
  {
    assert e[..0] + e[n..] == e[n..] == e[n..][0..];
  }

  lemma RShiftParts(e: seq<Entry>, n: int, s: Value)
    requires n > 0
    ensures s == None ==> e[..0] + Renumber(e[0..], n) == RShift(e, n, s)
    ensures s != None ==>
              var f := PutAt(e, 0, (0, s)); |f| == |e| + 1 && f[..1] + Renumber(f[1..], n) == RShift(e, n, s)
  {
    hide Renumber;
    assert e[0..] == e && e[..0] == [];
    assert s == None ==> [] + Renumber(e, n) == Renumber(e, n);
    var f := PutAt(e, 0, (0, s));
    assert f[1..] == e && f[..1] == [(0, s)];
  }

  /** The value pushed at index 0 comes before all others. */
  predicate PushFits(e: seq<Entry>, n: int, s: Value) {
    s.Some? && n > 0 && e != [] ==> e[0].0 + n > 0
  }

  /** Renumbering and pushing keeps the order exactly if the value pushed comes first; with indices that
      are not negative it does. */
  lemma RShiftOrder(e: seq<Entry>, n: int, s: Value)
    requires Ascending(e)
    ensures Ascending(RShift(e, n, s)) <==> PushFits(e, n, s)
    ensures e != [] && e[0].0 >= 0 ==> PushFits(e, n, s)
  {
    if n > 0 {
      var f, d := RShift(e, n, s), if s == None then 0 else 1;
      forall i | d <= i < |f| ensures f[i] == (e[i - d].0 + n, e[i - d].1) {
      }
      assert forall i :: 0 <= i < |e| ==> e[0].0 <= e[i].0;
      if d == 1 && e != [] { assert f[0].0 == 0 && f[1].0 == e[0].0 + n; }
    }
  }

  // ---------- Agreement with a finite map ----------

  lemma {:induction false} ToMapKeys(e: seq<Entry>, i: int)
    ensures i in ToMap(e) <==> exists k :: 0 <= k < |e| && e[k].0 == i
  {
    if e != [] {
      ToMapKeys(e[1..], i);
      if i in ToMap(e[1..]) {
        var k :| 0 <= k < |e[1..]| && e[1..][k].0 == i;
        assert e[k + 1].0 == i;
      }
      if k :| 0 <= k < |e| && e[k].0 == i {
        if k > 0 { assert e[1..][k - 1].0 == i; }
      }
    }
  }

  lemma {:induction false} ToMapValue(e: seq<Entry>, k: nat)
    requires Ascending(e) && k < |e|
    ensures e[k].0 in ToMap(e) && ToMap(e)[e[k].0] == e[k].1
  {
    if k > 0 {
      ToMapValue(e[1..], k - 1);
      assert e[0].0 < e[k].0;
    }
  }

  lemma {:induction false} PresentInMap(e: seq<Entry>, i: int)
    requires Ascending(e)
    ensures Present(e, i) <==> i in ToMap(e)
    ensures Present(e, i) ==> ToMap(e)[i] == e[Rank(e, i)].1
  {
    ToMapKeys(e, i);
    var r := Rank(e, i);
    if Present(e, i) { ToMapValue(e, r); }
    if k :| 0 <= k < |e| && e[k].0 == i {
      assert r <= k;
    }
  }

  /** Two ascending sequences with the same lookups are the same map. */
  lemma {:induction false} SameMap(e: seq<Entry>, m: map<int, Value>)
    requires Ascending(e)
    requires forall k :: 0 <= k < |e| ==> e[k].0 in m && m[e[k].0] == e[k].1
    requires forall i :: i in m ==> exists k :: 0 <= k < |e| && e[k].0 == i
    ensures ToMap(e) == m
  {
    forall i ensures i in ToMap(e) <==> i in m { ToMapKeys(e, i); }
    forall i | i in m ensures ToMap(e)[i] == m[i] {
      var k :| 0 <= k < |e| && e[k].0 == i;
      ToMapValue(e, k);
    }
  }

  /** An entry in place of entry `r`. */
  lemma ReplaceInMap(e: seq<Entry>, r: nat, v: Value)
    requires Ascending(e) && r < |e|
    ensures Ascending(e[r := (e[r].0, v)]) && ToMap(e[r := (e[r].0, v)]) == ToMap(e)[e[r].0 := v]
  {
    hide ToMap;
    var e', m := e[r := (e[r].0, v)], ToMap(e)[e[r].0 := v];
    forall k | 0 <= k < |e'| ensures e'[k].0 in m && m[e'[k].0] == e'[k].1 {
      ToMapValue(e, k);
    }
    forall x | x in m ensures exists k :: 0 <= k < |e'| && e'[k].0 == x {
      ToMapKeys(e, x);
      if x == e[r].0 {
        assert e'[r].0 == x;
      } else {
        var k :| 0 <= k < |e| && e[k].0 == x;
        assert e'[k].0 == x;
      }
    }
    SameMap(e', m);
  }

  /** A new entry between the smaller and the greater ones. */
  lemma {:induction false} PutInMap(e: seq<Entry>, r: nat, i: int, v: Value)
    requires Ascending(e) && r <= |e|
    requires (forall k :: 0 <= k < r ==> e[k].0 < i) && (forall k :: r <= k < |e| ==> e[k].0 > i)
    ensures Ascending(PutAt(e, r, (i, v))) && ToMap(PutAt(e, r, (i, v))) == ToMap(e)[i := v]
  {
    hide ToMap, Ascending, PutAt;
    var e', m := PutAt(e, r, (i, v)), ToMap(e)[i := v];
    PutPlaces(e, r, i, v);
    forall k | 0 <= k < |e'| ensures e'[k].0 in m && m[e'[k].0] == e'[k].1 {
      if k != r { ToMapValue(e, if k < r then k else k - 1); }
    }
    forall x | x in m ensures exists k :: 0 <= k < |e'| && e'[k].0 == x {
      ToMapKeys(e, x);
      if x == i {
        assert e'[r].0 == x;
      } else {
        var k :| 0 <= k < |e| && e[k].0 == x;
        assert e'[if k < r then k else k + 1].0 == x;
      }
    }
    SameMap(e', m);
  }

  /** Where entries are after an insertion, which keeps the order. */
  lemma PutPlaces(e: seq<Entry>, r: nat, i: int, v: Value)
    requires Ascending(e) && r <= |e|
    requires (forall k :: 0 <= k < r ==> e[k].0 < i) && (forall k :: r <= k < |e| ==> e[k].0 > i)
    ensures var f := PutAt(e, r, (i, v));
            && |f| == |e| + 1 && f[r] == (i, v) && (forall k :: 0 <= k < r ==> f[k] == e[k])
            && (forall k {:trigger f[k]} :: r < k < |f| ==> f[k] == e[k - 1])
            && (forall k {:trigger e[k]} :: r <= k < |e| ==> f[k + 1] == e[k])
            && (forall k :: 0 <= k < |f| && k != r ==> f[k].0 != i) && Ascending(f)
  {
    var f := PutAt(e, r, (i, v));
    assert f == e[..r] + [(i, v)] + e[r..];
  }

  /** Inserting is a map update. */
  lemma {:induction false} InsertIsUpdate(e: seq<Entry>, i: int, v: Value)
    requires Ascending(e) && (e != [] || i >= 0)
    ensures Ascending(Insert(e, i, v)) && ToMap(Insert(e, i, v)) == ToMap(e)[i := v]
  {
    var r := Rank(e, i);
    hide ToMap, Rank, PutAt;
    if Present(e, i) {
      ReplaceInMap(e, r, v);
    } else {
      PutInMap(e, r, i, v);
    }
  }

  /** Entry `r` taken out. */
  lemma {:induction false} DropInMap(e: seq<Entry>, r: nat)
    requires Ascending(e) && r < |e|
    ensures Ascending(e[..r] + e[r + 1..]) && ToMap(e[..r] + e[r + 1..]) == ToMap(e) - {e[r].0}
  {
    hide ToMap;
    var e', m := e[..r] + e[r + 1..], ToMap(e) - {e[r].0};
    forall k | 0 <= k < |e'| ensures e'[k].0 in m && m[e'[k].0] == e'[k].1 {
      var o := if k < r then k else k + 1;
      assert e'[k] == e[o];
      ToMapValue(e, o);
    }
    forall x | x in m ensures exists k :: 0 <= k < |e'| && e'[k].0 == x {
      ToMapKeys(e, x);
      var k :| 0 <= k < |e| && e[k].0 == x;
      assert e'[if k < r then k else k - 1].0 == x;
    }
    SameMap(e', m);
  }

  /** Removing takes the key out of the map. */
  lemma {:induction false} RemoveIsDelete(e: seq<Entry>, i: int)
    requires Ascending(e)
    ensures Ascending(Remove(e, i)) && ToMap(Remove(e, i)) == ToMap(e) - {i}
  {
    hide ToMap, Rank;
    PresentInMap(e, i);
    if Present(e, i) {
      DropInMap(e, Rank(e, i));
    }
  }

  /** With non-negative indices, shifting never makes an index negative: the entry at position `n` has
      an index of at least `n`. */
  lemma {:induction false} IndexAtLeastPosition(e: seq<Entry>, k: nat)
    requires Ascending(e) && k < |e| && e[0].0 >= 0
    ensures e[k].0 >= k
  {
    if k > 0 {
      IndexAtLeastPosition(e, k - 1);
    }
  }

  lemma ShiftKeepsOrder(e: seq<Entry>, n: int)
    requires Ascending(e)
    ensures Ascending(Shift(e, n))
    ensures e != [] && e[0].0 >= 0 && Shift(e, n) != [] ==> Shift(e, n)[0].0 >= 0
  {
    if 0 < n < |e| && e[0].0 >= 0 { IndexAtLeastPosition(e, n); }
  }

  /** Pushing a value and shifting it out again restores the array. */
  lemma ShiftUndoesPush(e: seq<Entry>, s: Value)
    requires s.Some?
    ensures Shift(RShift(e, 1, s), 1) == e
  {
    var p := RShift(e, 1, s);
    var q := Shift(p, 1);
    assert |p| == |e| + 1 && |q| == |e|;
    forall k | 0 <= k < |e| ensures q[k] == e[k] {
      assert p[k + 1] == (e[k].0 + 1, e[k].1);
      assert p[1..][k] == p[k + 1];
    }
  }
}
