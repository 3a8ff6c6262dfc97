/** The binary buddy system as a tiling of the managed pages by aligned blocks.
    A block is named by its first page. */
module BuddyTiling {
  import opened Bits

  /** The managed memory: its number of pages, and the order of its largest blocks. */
  datatype Arena = Arena(total: nat, top: nat)

  datatype Block = Block(order: nat, free: bool)

  type Tiling = map<nat, Block>

  ghost predicate Covers(t: Tiling, a: nat, p: nat) {
    a in t && a <= p < a + Pow2(t[a].order)
  }

  ghost predicate Fits(t: Tiling, m: Arena, a: nat)
    requires a in t
  {
    && t[a].order <= m.top
    && Aligned(a, t[a].order)
    && a + Pow2(t[a].order) <= m.total
  }

  ghost predicate AllFit(t: Tiling, m: Arena) {
    forall a :: a in t ==> Fits(t, m, a)
  }

  ghost predicate Disjoint(t: Tiling) {
    forall a, b :: a in t && b in t && a < b ==> a + Pow2(t[a].order) <= b
  }

  ghost predicate Covered(t: Tiling, p: nat) {
    exists a :: Covers(t, a, p)
  }

  /** Every block is aligned to its own size, no two overlap, and together they cover all pages. */
  ghost predicate Tiles(t: Tiling, m: Arena) {
    && Aligned(m.total, m.top)
    && AllFit(t, m)
    && Disjoint(t)
    && (forall p :: 0 <= p < m.total ==> Covered(t, p))
  }

  ghost predicate HasFreeBuddy(t: Tiling, a: nat)
    requires a in t && Aligned(a, t[a].order)
  {
    var b := Buddy(a, t[a].order);
    b in t && t[b] == Block(t[a].order, true)
  }

  /** No free block below the top order has a free buddy of its own order. */
  ghost predicate Coalesced(t: Tiling, m: Arena)
    requires Tiles(t, m)
  {
    forall a :: a in t && t[a].free && t[a].order < m.top ==> Fits(t, m, a) && !HasFreeBuddy(t, a)
  }

  ghost predicate Good(t: Tiling, m: Arena) {
    Tiles(t, m) && Coalesced(t, m)
  }

  /** The allocated blocks: first page to order. */
  ghost function Live(t: Tiling): map<nat, nat> {
    map a | a in t && !t[a].free :: t[a].order
  }

  ghost function FreeHeads(t: Tiling, order: nat): set<nat> {
    set a | a in t && t[a] == Block(order, true)
  }

  ghost predicate IsInterval(s: set<nat>, a: nat, n: nat) {
    |s| == n && forall p :: p in s <==> a <= p < a + n
  }

  lemma {:induction false} IntervalExists(a: nat, n: nat)
    ensures exists s: set<nat> :: IsInterval(s, a, n)
  {
    if n == 0 {
      assert IsInterval({}, a, 0);
    } else {
      IntervalExists(a, n - 1);
      var s: set<nat> :| IsInterval(s, a, n - 1);
      assert IsInterval(s + {a + n - 1}, a, n);
    }
  }

  /** The n pages from a on. */
  ghost function Interval(a: nat, n: nat): (r: set<nat>)
    ensures IsInterval(r, a, n)
  {
    IntervalExists(a, n);
    var s: set<nat> :| IsInterval(s, a, n); s
  }

  ghost predicate Holds(t: Tiling, s: set<nat>, p: nat) {
    exists a :: a in s && Covers(t, a, p)
  }

  ghost function PagesOf(t: Tiling, m: Arena, s: set<nat>): set<nat> {
    set p | p in Interval(0, m.total) && Holds(t, s, p)
  }

  ghost function FreeBlocks(t: Tiling): set<nat> {
    set a | a in t && t[a].free
  }

  ghost function LiveBlocks(t: Tiling): set<nat> {
    set a | a in t && !t[a].free
  }

  ghost function FreePages(t: Tiling, m: Arena): set<nat> {
    PagesOf(t, m, FreeBlocks(t))
  }

  ghost function LivePages(t: Tiling, m: Arena): set<nat> {
    PagesOf(t, m, LiveBlocks(t))
  }

  // ------------------------------------------------------------ the starting state

  ghost function Initial(m: Arena): Tiling {
    map a | 0 <= a < m.total && Aligned(a, m.top) :: Block(m.top, true)
  }

  lemma InitialGood(m: Arena)
    requires Aligned(m.total, m.top)
    ensures Good(Initial(m), m)
    ensures Live(Initial(m)) == map[]
  {
    var t := Initial(m);
    forall a | a in t
      ensures Fits(t, m, a)
    {
      AlignedApart(a, m.total, m.top);
    }
    forall a, b | a in t && b in t && a < b
      ensures a + Pow2(t[a].order) <= b
    {
      AlignedApart(a, b, m.top);
    }
    forall p | 0 <= p < m.total
      ensures Covered(t, p)
    {
      var a := RoundDown(p, m.top);
      assert Covers(t, a, p);
    }
  }

  // ------------------------------------------------------------ structure of a tiling

  lemma CoverUnique(t: Tiling, m: Arena, a: nat, b: nat, p: nat)
    requires Tiles(t, m)
    requires Covers(t, a, p) && Covers(t, b, p)
    ensures a == b
  {
  }

  lemma Coverer(t: Tiling, m: Arena, p: nat) returns (a: nat)
    requires Tiles(t, m) && p < m.total
    ensures Covers(t, a, p) && Fits(t, m, a)
  {
    assert Covered(t, p);
    a :| Covers(t, a, p);
  }

  /** The buddy of a block below the top order is again the head of a block, of at most its order.
      This is why reading the order table at the buddy's index never meets a stale entry. */
  lemma BuddyIsHead(t: Tiling, m: Arena, a: nat)
    requires Tiles(t, m)
    requires a in t && Fits(t, m, a) && t[a].order < m.top
    ensures Buddy(a, t[a].order) in t
    ensures t[Buddy(a, t[a].order)].order <= t[a].order
  {
    var n := t[a].order;
    var b := Buddy(a, n);
    BuddyFacts(a, n);
    var low := if a < b then a else b;
    AlignedDown(m.total, n + 1, m.top);
    AlignedApart(low, m.total, n + 1);
    assert b < m.total;
    var c := Coverer(t, m, b);
    if t[c].order > n {
      LargerHoldsBoth(c, t[c].order, b, n);
    } else if c < b {
      AlignedDown(b, t[c].order, n);
      AlignedApart(c, b, t[c].order);
    }
  }

  /** A block that covers part of a smaller aligned region covers all of it. */
  lemma LargerHoldsRegion(c: nat, k: nat, low: nat, n: nat, p: nat)
    requires Aligned(c, k) && Aligned(low, n) && n <= k
    requires c <= p < c + Pow2(k) && low <= p < low + Pow2(n)
    ensures c <= low && low + Pow2(n) <= c + Pow2(k)
  {
    AlignedDown(c, n, k);
    if low < c {
      AlignedApart(low, c, n);
    }
    Nested(low, n, c, k);
  }

  /** A block of larger order that covers one of two buddies covers the other. */
  lemma LargerHoldsBoth(c: nat, k: nat, b: nat, n: nat)
    requires Aligned(c, k) && Aligned(b, n) && n < k
    requires c <= b < c + Pow2(k)
    ensures c <= Buddy(b, n) < c + Pow2(k)
    ensures Buddy(b, n) + Pow2(n) <= c + Pow2(k)
  {
    hide Aligned;
    BuddyFacts(b, n);
    LargerHoldsRegion(c, k, if b < Buddy(b, n) then b else Buddy(b, n), n + 1, b);
  }

  // ------------------------------------------------------------ the primitive steps

  ghost function Take(t: Tiling, a: nat): Tiling
    requires a in t
  {
    t[a := Block(t[a].order, false)]
  }

  ghost function Give(t: Tiling, a: nat): Tiling
    requires a in t
  {
    t[a := Block(t[a].order, true)]
  }

  /** Halve the block at a; the upper half becomes free. */
  ghost function Split(t: Tiling, a: nat): Tiling
    requires a in t && t[a].order > 0
  {
    var n := t[a].order - 1;
    t[a := Block(n, t[a].free)][a + Pow2(n) := Block(n, true)]
  }

  /** Merge the block at a with its buddy. */
  ghost function Merge(t: Tiling, a: nat): Tiling
    requires a in t && Aligned(a, t[a].order)
  {
    var b := Buddy(a, t[a].order);
    var low, high := if a < b then a else b, if a < b then b else a;
    (t - {high})[low := Block(t[a].order + 1, t[a].free)]
  }

  lemma SameCover(t: Tiling, u: Tiling, m: Arena)
    requires Tiles(t, m)
    requires t.Keys == u.Keys && forall a :: a in t ==> u[a].order == t[a].order
    ensures Tiles(u, m)
  {
    forall a | a in u
      ensures Fits(u, m, a)
    {
      assert Fits(t, m, a);
    }
    forall p | 0 <= p < m.total
      ensures Covered(u, p)
    {
      var a := Coverer(t, m, p);
      assert Covers(u, a, p);
    }
  }

  lemma TakeGood(t: Tiling, m: Arena, a: nat)
    requires Good(t, m) && a in t
    ensures Good(Take(t, a), m)
  {
    var u := Take(t, a);
    SameCover(t, u, m);
    forall b | b in u && u[b].free && u[b].order < m.top
      ensures Fits(u, m, b) && !HasFreeBuddy(u, b)
    {
      assert Fits(t, m, b) && !HasFreeBuddy(t, b);
    }
  }

  lemma GiveGood(t: Tiling, m: Arena, a: nat)
    requires Good(t, m) && a in t && Fits(t, m, a)
    requires t[a].order == m.top || !HasFreeBuddy(t, a)
    ensures Good(Give(t, a), m)
  {
    var u := Give(t, a);
    SameCover(t, u, m);
    forall b | b in u && u[b].free && u[b].order < m.top
      ensures Fits(u, m, b) && !HasFreeBuddy(u, b)
    {
      assert Fits(t, m, b);
      BuddyFacts(b, t[b].order);
    }
  }

  lemma SplitFits(t: Tiling, m: Arena, a: nat)
    requires Tiles(t, m) && a in t && t[a].order > 0
    ensures AllFit(Split(t, a), m)
  {
    var u := Split(t, a);
    var n := t[a].order - 1;
    assert Fits(t, m, a);
    UpperHalf(a, n);
    forall b | b in u
      ensures Fits(u, m, b)
    {
      if b != a && b != a + Pow2(n) { assert Fits(t, m, b); }
    }
  }

  lemma SplitDisjoint(t: Tiling, m: Arena, a: nat)
    requires Tiles(t, m) && a in t && t[a].order > 0
    ensures Disjoint(Split(t, a))
  {
    hide Aligned, AllFit, Covered, Pow2;
    UpperHalfOf(t, m, a);
  }

  lemma UpperHalfOf(t: Tiling, m: Arena, a: nat)
    requires Tiles(t, m) && a in t && t[a].order > 0
    ensures Pow2(t[a].order) == Pow2(t[a].order - 1) + Pow2(t[a].order - 1) && Pow2(t[a].order - 1) > 0
    ensures a + Pow2(t[a].order - 1) !in t
  {
  }

  lemma SplitCovered(t: Tiling, m: Arena, a: nat, p: nat)
    requires Tiles(t, m) && a in t && t[a].order > 0 && p < m.total
    ensures Covered(Split(t, a), p)
  {
    hide Aligned, AllFit, Disjoint, Pow2;
    var h := a + Pow2(t[a].order - 1);
    UpperHalfOf(t, m, a);
    var b := Coverer(t, m, p);
    assert Covers(Split(t, a), if b != a then b else if p < h then a else h, p);
  }

  lemma SplitTiles(t: Tiling, m: Arena, a: nat)
    requires Tiles(t, m) && a in t && t[a].order > 0
    ensures Tiles(Split(t, a), m)
  {
    hide Aligned, AllFit, Disjoint, Covered, Split;
    SplitFits(t, m, a);
    SplitDisjoint(t, m, a);
    forall p | 0 <= p < m.total
      ensures Covered(Split(t, a), p)
    {
      SplitCovered(t, m, a, p);
    }
  }

  lemma SplitGood(t: Tiling, m: Arena, a: nat)
    requires Good(t, m) && a in t && t[a].order > 0 && !t[a].free
    ensures Good(Split(t, a), m)
  {
    hide Aligned, Pow2, Disjoint, Covered;
    var u := Split(t, a);
    var n := t[a].order - 1;
    assert Fits(t, m, a);
    UpperHalf(a, n);
    SplitTiles(t, m, a);
    forall b | b in u && u[b].free && u[b].order < m.top
      ensures Fits(u, m, b) && !HasFreeBuddy(u, b)
    {
      assert Fits(u, m, b);
      BuddyFacts(b, u[b].order);
    }
  }

  ghost predicate Mergeable(t: Tiling, m: Arena, a: nat) {
    && a in t && Fits(t, m, a) && t[a].order < m.top
    && Buddy(a, t[a].order) in t && t[Buddy(a, t[a].order)].order == t[a].order
  }

  lemma MergeFits(t: Tiling, m: Arena, a: nat)
    requires Tiles(t, m) && Mergeable(t, m, a)
    ensures AllFit(Merge(t, a), m)
  {
    var u := Merge(t, a);
    var n := t[a].order;
    BuddyFacts(a, n);
    assert Fits(t, m, Buddy(a, n));
    forall c | c in u
      ensures Fits(u, m, c)
    {
      assert Fits(t, m, c);
    }
  }

  lemma MergeDisjoint(t: Tiling, m: Arena, a: nat)
    requires Tiles(t, m) && Mergeable(t, m, a)
    ensures Disjoint(Merge(t, a))
  {
  }

  lemma MergeTiles(t: Tiling, m: Arena, a: nat)
    requires Tiles(t, m) && Mergeable(t, m, a)
    ensures Tiles(Merge(t, a), m)
  {
    hide Aligned, AllFit, Disjoint;
    var u := Merge(t, a);
    var b := Buddy(a, t[a].order);
    var low, high := if a < b then a else b, if a < b then b else a;
    MergeFits(t, m, a);
    MergeDisjoint(t, m, a);
    forall p | 0 <= p < m.total
      ensures Covered(u, p)
    {
      var c := Coverer(t, m, p);
      assert Covers(u, if c == high then low else c, p);
    }
  }

  lemma MergeGood(t: Tiling, m: Arena, a: nat)
    requires Good(t, m) && a in t && Fits(t, m, a) && t[a].order < m.top
    requires !t[a].free && HasFreeBuddy(t, a)
    ensures Good(Merge(t, a), m)
  {
    var u := Merge(t, a);
    BuddyFacts(a, t[a].order);
    MergeTiles(t, m, a);
    forall b | b in u && u[b].free && u[b].order < m.top
      ensures Fits(u, m, b) && !HasFreeBuddy(u, b)
    {
      assert Fits(t, m, b) && !HasFreeBuddy(t, b);
    }
  }

  // ------------------------------------------------------------ maximal coalescing

  ghost predicate RegionFree(t: Tiling, c: nat, r: nat) {
    forall a, p: nat :: c <= p < c + Pow2(r) && Covers(t, a, p) ==> t[a].free
  }

  /** An aligned region that holds no allocated page is not cut into smaller blocks. */
  lemma {:induction false} FreeRegionIsWhole(t: Tiling, m: Arena, c: nat, r: nat, a: nat)
    requires Good(t, m) && r <= m.top && Aligned(c, r)
    requires RegionFree(t, c, r)
    requires a in t && c <= a < c + Pow2(r)
    ensures t[a].order >= r
    decreases if a in t then t[a].order else 0
  {
    var n := t[a].order;
    if n < r {
      assert Fits(t, m, a);
      BuddyIsHead(t, m, a);
      var b := Buddy(a, n);
      LargerHoldsBoth(c, r, a, n);
      if t[b].order < n {
        FreeRegionIsWhole(t, m, c, r, b);
      } else {
        assert Covers(t, b, b) && Covers(t, a, a);
        assert HasFreeBuddy(t, a);
      }
    }
  }

  lemma LiveThere(t: Tiling, u: Tiling, m: Arena, a: nat, b: nat, p: nat)
    requires Tiles(u, m) && Live(t) == Live(u)
    requires Covers(t, a, p) && Covers(u, b, p) && !t[a].free
    ensures !u[b].free
  {
    assert a in Live(u) && Live(u)[a] == Live(t)[a];
    assert Covers(u, a, p);
    CoverUnique(u, m, a, b, p);
  }

  lemma PageLiveness(t: Tiling, u: Tiling, m: Arena, a: nat, b: nat, p: nat)
    requires Tiles(t, m) && Tiles(u, m) && Live(t) == Live(u)
    requires Covers(t, a, p) && Covers(u, b, p)
    ensures t[a].free == u[b].free
  {
    if !t[a].free { LiveThere(t, u, m, a, b, p); }
    if !u[b].free { LiveThere(u, t, m, b, a, p); }
  }

  lemma FreeBlockShared(t: Tiling, u: Tiling, m: Arena, a: nat)
    requires Good(t, m) && Good(u, m) && Live(t) == Live(u)
    requires a in t && t[a].free
    ensures a in u && u[a] == t[a]
  {
    var n := t[a].order;
    assert Fits(t, m, a) && Covers(t, a, a);
    var c := Coverer(u, m, a);
    assert Fits(u, m, c);
    PageLiveness(t, u, m, a, c, a);
    if u[c].order > n {
      forall b, p: nat | c <= p < c + Pow2(u[c].order) && Covers(t, b, p)
        ensures t[b].free
      {
        assert Covers(u, c, p);
        PageLiveness(t, u, m, b, c, p);
      }
      FreeRegionIsWhole(t, m, c, u[c].order, a);
    } else if c < a {
      AlignedDown(a, u[c].order, n);
      AlignedApart(c, a, u[c].order);
    } else if u[c].order < n {
      forall b, p: nat | a <= p < a + Pow2(n) && Covers(u, b, p)
        ensures u[b].free
      {
        assert Covers(t, a, p);
        PageLiveness(t, u, m, a, b, p);
      }
      FreeRegionIsWhole(u, m, a, n, c);
    }
  }

  /** The free blocks are a function of the allocated ones: two coalesced tilings with the same
      allocated blocks are equal, whatever sequence of allocations and frees led to each. */
  lemma FreeSetDetermined(t: Tiling, u: Tiling, m: Arena)
    requires Good(t, m) && Good(u, m)
    ensures Live(t) == Live(u) <==> t == u
  {
    if Live(t) == Live(u) {
      forall a | a in t
        ensures a in u && u[a] == t[a]
      {
        if t[a].free {
          FreeBlockShared(t, u, m, a);
        } else {
          assert a in Live(u) && Live(u)[a] == Live(t)[a];
        }
      }
      forall a | a in u
        ensures a in t
      {
        if u[a].free {
          FreeBlockShared(u, t, m, a);
        } else {
          assert a in Live(t);
        }
      }
      assert t == u;
    }
  }

  /** Once nothing is allocated, exactly the initial top-order blocks are left. */
  lemma AllFreedIsInitial(t: Tiling, m: Arena)
    requires Good(t, m) && Live(t) == map[]
    ensures t == Initial(m)
  {
    InitialGood(m);
    FreeSetDetermined(t, Initial(m), m);
  }

  // ------------------------------------------------------------ conservation of pages

  lemma DisjointPages(t: Tiling, m: Arena, r: set<nat>, s: set<nat>)
    requires Tiles(t, m) && r !! s
    ensures PagesOf(t, m, r) !! PagesOf(t, m, s)
    ensures PagesOf(t, m, r + s) == PagesOf(t, m, r) + PagesOf(t, m, s)
    ensures |PagesOf(t, m, r + s)| == |PagesOf(t, m, r)| + |PagesOf(t, m, s)|
  {
    var x, y := PagesOf(t, m, r), PagesOf(t, m, s);
    forall p | p in x && p in y
      ensures false
    {
      var a :| a in r && Covers(t, a, p);
      var b :| b in s && Covers(t, b, p);
      CoverUnique(t, m, a, b, p);
    }
    assert x !! y;
    forall p | p in PagesOf(t, m, r + s)
      ensures p in x + y
    {
      var a :| a in r + s && Covers(t, a, p);
    }
    assert PagesOf(t, m, r + s) == x + y;
  }

  lemma PagesPartition(t: Tiling, m: Arena)
    requires Tiles(t, m)
    ensures FreePages(t, m) + LivePages(t, m) == Interval(0, m.total)
    ensures FreePages(t, m) !! LivePages(t, m)
    ensures |FreePages(t, m)| + |LivePages(t, m)| == m.total
  {
    var r, s := FreeBlocks(t), LiveBlocks(t);
    DisjointPages(t, m, r, s);
    forall p | p in Interval(0, m.total)
      ensures p in PagesOf(t, m, r + s)
    {
      var a := Coverer(t, m, p);
      assert a in r + s;
    }
    assert PagesOf(t, m, r + s) == Interval(0, m.total);
  }

  lemma PagesOfOne(t: Tiling, m: Arena, a: nat)
    requires Tiles(t, m) && a in t
    ensures PagesOf(t, m, {a}) == Interval(a, Pow2(t[a].order))
  {
    assert Fits(t, m, a);
    forall p | p in Interval(a, Pow2(t[a].order))
      ensures p in PagesOf(t, m, {a})
    {
      assert Covers(t, a, p);
    }
  }

  lemma PagesOfOneMore(t: Tiling, m: Arena, rest: set<nat>, a: nat)
    requires Tiles(t, m) && a in t && a !in rest
    ensures |PagesOf(t, m, rest + {a})| == |PagesOf(t, m, rest)| + Pow2(t[a].order)
  {
    DisjointPages(t, m, rest, {a});
    PagesOfOne(t, m, a);
  }

  /** Blocks of one order: the pages they cover number the blocks times the block size. */
  lemma {:induction false} PagesOfOrder(t: Tiling, m: Arena, s: set<nat>, n: nat)
    requires Tiles(t, m) && s <= t.Keys
    requires forall a :: a in s ==> t[a].order == n
    ensures |PagesOf(t, m, s)| == Times(|s|, Pow2(n))
    decreases s
  {
    hide Tiles, Times, Pow2;
    if s == {} {
      assert PagesOf(t, m, s) == {};
      TimesMore(0, Pow2(n));
    } else {
      var a :| a in s;
      var rest := s - {a};
      PagesOfOrder(t, m, rest, n);
      PagesOfOneMore(t, m, rest, a);
      assert rest + {a} == s;
      TimesMore(|rest|, Pow2(n));
    }
  }

  /** Number of free pages counted list by list, below the given order. */
  ghost function FreeUnits(t: Tiling, orders: nat): nat {
    if orders == 0 then 0
    else FreeUnits(t, orders - 1) + Times(|FreeHeads(t, orders - 1)|, Pow2(orders - 1))
  }

  ghost function FreeBelow(t: Tiling, orders: nat): set<nat> {
    set a | a in t && t[a].free && t[a].order < orders
  }

  lemma PagesOneOrderMore(t: Tiling, m: Arena, n: nat)
    requires Tiles(t, m)
    ensures |PagesOf(t, m, FreeBelow(t, n + 1))|
         == |PagesOf(t, m, FreeBelow(t, n))| + Times(|FreeHeads(t, n)|, Pow2(n))
  {
    var s, r := FreeHeads(t, n), FreeBelow(t, n);
    assert FreeBelow(t, n + 1) == r + s;
    PagesOfOrder(t, m, s, n);
    DisjointPages(t, m, r, s);
  }

  lemma {:induction false} FreeUnitsArePages(t: Tiling, m: Arena, orders: nat)
    requires Tiles(t, m)
    ensures FreeUnits(t, orders) == |PagesOf(t, m, FreeBelow(t, orders))|
  {
    if orders == 0 {
      assert PagesOf(t, m, FreeBelow(t, 0)) == {};
    } else {
      FreeUnitsArePages(t, m, orders - 1);
      PagesOneOrderMore(t, m, orders - 1);
    }
  }

  /** Free pages counted from the free lists plus allocated pages are all the managed pages. */
  lemma Conservation(t: Tiling, m: Arena, orders: nat)
    requires Tiles(t, m) && orders == m.top + 1
    ensures FreeUnits(t, orders) == |FreePages(t, m)|
    ensures FreeUnits(t, orders) + |LivePages(t, m)| == m.total
  {
    FreeUnitsArePages(t, m, orders);
    assert FreeBelow(t, orders) == FreeBlocks(t) by {
      forall a | a in t
        ensures t[a].order < orders
      {
        assert Fits(t, m, a);
      }
    }
    PagesPartition(t, m);
  }

  /** Allocated blocks never overlap. */
  lemma LiveDisjoint(t: Tiling, m: Arena, a: nat, b: nat)
    requires Tiles(t, m)
    requires a in Live(t) && b in Live(t) && a != b
    ensures a + Pow2(Live(t)[a]) <= b || b + Pow2(Live(t)[b]) <= a
  {
  }

  /** The pages of a set of blocks given as a map from first page to order. */
  ghost predicate InBlocks(live: map<nat, nat>, p: nat) {
    exists a :: a in live && a <= p < a + Pow2(live[a])
  }

  lemma LivePagesByMap(t: Tiling, m: Arena, p: nat)
    requires Tiles(t, m)
    ensures p in LivePages(t, m) <==> InBlocks(Live(t), p)
  {
    if p in LivePages(t, m) {
      var a :| a in LiveBlocks(t) && Covers(t, a, p);
      assert a in Live(t);
    }
    if InBlocks(Live(t), p) {
      var a :| a in Live(t) && a <= p < a + Pow2(Live(t)[a]);
      assert Fits(t, m, a) && a in LiveBlocks(t) && Covers(t, a, p);
    }
  }

  lemma InBlocksGrow(live: map<nat, nat>, a: nat, k: nat, p: nat)
    requires a !in live
    ensures InBlocks(live[a := k], p) <==> InBlocks(live, p) || a <= p < a + Pow2(k)
  {
    var more := live[a := k];
    if InBlocks(live, p) {
      var b: nat :| b in live && b <= p < b + Pow2(live[b]);
      assert b in more && more[b] == live[b];
    }
    if a <= p < a + Pow2(k) {
      assert a in more && more[a] == k;
    }
  }

  lemma LivePagesGrow(t: Tiling, u: Tiling, m: Arena, a: nat, k: nat)
    requires Tiles(t, m) && Tiles(u, m)
    requires a !in Live(t) && Live(u) == Live(t)[a := k]
    ensures LivePages(u, m) == LivePages(t, m) + Interval(a, Pow2(k))
  {
    hide Tiles, LivePages, Live, InBlocks;
    forall p: nat
      ensures p in LivePages(u, m) <==> p in LivePages(t, m) + Interval(a, Pow2(k))
    {
      LivePagesByMap(t, m, p);
      LivePagesByMap(u, m, p);
      InBlocksGrow(Live(t), a, k, p);
    }
  }

  lemma LivePagesApart(t: Tiling, u: Tiling, m: Arena, a: nat, k: nat)
    requires Tiles(t, m) && Tiles(u, m)
    requires a !in Live(t) && Live(u) == Live(t)[a := k]
    ensures LivePages(t, m) !! Interval(a, Pow2(k))
  {
    hide Tiles, LivePages, Live;
    forall p | p in LivePages(t, m)
      ensures p !in Interval(a, Pow2(k))
    {
      LivePagesByMap(t, m, p);
      var b: nat :| b in Live(t) && b <= p < b + Pow2(Live(t)[b]);
      LiveDisjoint(u, m, a, b);
    }
  }

  /** An allocation of order k takes exactly its pages from the free ones. */
  lemma FreePagesShrink(t: Tiling, u: Tiling, m: Arena, a: nat, k: nat)
    requires Tiles(t, m) && Tiles(u, m)
    requires a !in Live(t) && Live(u) == Live(t)[a := k]
    ensures |FreePages(u, m)| + Pow2(k) == |FreePages(t, m)|
  {
    hide Tiles, LivePages, FreePages, Live;
    LivePagesGrow(t, u, m, a, k);
    LivePagesApart(t, u, m, a, k);
    PagesPartition(t, m);
    PagesPartition(u, m);
  }
}
