/** The page allocator of memory_manager/buddy.c: order table, list membership table, one free list
    per order. Addresses are page numbers relative to the start of the managed memory. */
module BuddyAllocator {
  import opened Basics
  import opened Bits
  import opened BuddyTiling

  const PAGE_SIZE: nat := 4096

  /** Set in an order entry while its block is allocated. */
  const LIVE_FLAG: nat := 16

  /** The list without the node that holds x. */
  function Unlink(s: seq<nat>, x: nat): (r: seq<nat>)
    requires NoDup(s)
    ensures NoDup(r)
    ensures forall y :: y in r <==> y in s && y != x
  {
    if s == [] then []
    else if s[0] == x then s[1..]
    else
      var r := Unlink(s[1..], x);
      assert s[0] !in r;
      [s[0]] + r
  }

  lemma {:induction false} NoDupSize(s: seq<nat>, h: set<nat>)
    requires NoDup(s) && forall x :: x in s <==> x in h
    ensures |s| == |h|
  {
    if s == [] {
      assert h == {};
    } else {
      var k := h - {s[0]};
      NoDupSize(s[1..], k);
      assert h == k + {s[0]};
    }
  }

  ghost predicate ListOk(s: seq<nat>, t: Tiling, i: nat) {
    NoDup(s) && forall x :: x in s <==> x in t && t[x] == Block(i, true)
  }

  ghost function Entry(b: Block): nat {
    b.order + (if b.free then 0 else LIVE_FLAG)
  }

  lemma ListTake(s: seq<nat>, t: Tiling, i: nat, a: nat)
    requires ListOk(s, t, i) && a in t && t[a].free
    ensures t[a].order != i ==> ListOk(s, Take(t, a), i)
    ensures t[a].order == i && s != [] && s[0] == a ==> ListOk(s[1..], Take(t, a), i)
  {
  }

  lemma ListGive(s: seq<nat>, t: Tiling, i: nat, a: nat)
    requires ListOk(s, t, i) && a in t && !t[a].free
    ensures t[a].order != i ==> ListOk(s, Give(t, a), i)
    ensures t[a].order == i ==> ListOk([a] + s, Give(t, a), i)
  {
  }

  lemma ListSplit(s: seq<nat>, t: Tiling, m: Arena, i: nat, a: nat)
    requires Tiles(t, m) && ListOk(s, t, i) && a in t && !t[a].free && t[a].order > 0
    ensures t[a].order - 1 != i ==> ListOk(s, Split(t, a), i)
    ensures t[a].order - 1 == i ==> ListOk([a + Pow2(i)] + s, Split(t, a), i)
  {
    hide Aligned, Pow2, Tiles;
    UpperHalfOf(t, m, a);
  }

  lemma ListMerge(s: seq<nat>, t: Tiling, m: Arena, i: nat, a: nat)
    requires Good(t, m) && ListOk(s, t, i)
    requires a in t && Fits(t, m, a) && !t[a].free && HasFreeBuddy(t, a)
    ensures t[a].order != i ==> ListOk(s, Merge(t, a), i)
    ensures t[a].order == i ==> ListOk(Unlink(s, Buddy(a, i)), Merge(t, a), i)
  {
    BuddyFacts(a, t[a].order);
  }

  lemma LiveTake(t: Tiling, a: nat)
    requires a in t && t[a].free
    ensures Live(Take(t, a)) == Live(t)[a := t[a].order] && a !in Live(t)
  {
  }

  lemma LiveGive(t: Tiling, a: nat)
    requires a in t && !t[a].free
    ensures Live(Give(t, a)) == Live(t) - {a}
  {
  }

  lemma LiveSplit(t: Tiling, m: Arena, a: nat)
    requires Tiles(t, m) && a in t && !t[a].free && t[a].order > 0
    ensures Live(Split(t, a)) == Live(t)[a := t[a].order - 1]
  {
    hide Aligned, Pow2, Tiles;
    UpperHalfOf(t, m, a);
  }

  lemma LiveMerge(t: Tiling, m: Arena, a: nat)
    requires Tiles(t, m) && a in t && Fits(t, m, a) && !t[a].free && HasFreeBuddy(t, a)
    ensures var low := if a < Buddy(a, t[a].order) then a else Buddy(a, t[a].order);
            Live(Merge(t, a)) == (Live(t) - {a})[low := t[a].order + 1]
  {
    BuddyFacts(a, t[a].order);
  }

  /** The descriptor's tables as a value. */
  datatype Tables = Tables(order: seq<nat>, onList: seq<bool>, pageList: seq<seq<nat>>)

  ghost predicate Sized(s: Tables, m: Arena) {
    && m.top < LIVE_FLAG
    && m.total <= |s.order| == |s.onList|
    && |s.pageList| == m.top + 1
  }

  /** The order entry is exact at every block head but the excepted one, and a free block below the
      top order is known to be on a list. */
  ghost predicate HeadsOk(s: Tables, t: Tiling, m: Arena, except: int)
    requires Sized(s, m) && Tiles(t, m)
  {
    forall a :: a in t && a != except ==>
      && Fits(t, m, a)
      && s.order[a] == Entry(t[a])
      && (t[a].free && t[a].order < m.top ==> s.onList[a])
  }

  ghost predicate ListsOk(s: Tables, t: Tiling, m: Arena)
    requires Sized(s, m)
  {
    forall i :: 0 <= i <= m.top ==> ListOk(s.pageList[i], t, i)
  }

  /** The tables describe the tiling, apart from the order entry of the block being worked on. */
  ghost predicate Describes(s: Tables, t: Tiling, m: Arena, except: int) {
    && Sized(s, m)
    && Good(t, m)
    && HeadsOk(s, t, m, except)
    && ListsOk(s, t, m)
  }

  ghost predicate Working(s: Tables, t: Tiling, m: Arena, page: nat, i: nat) {
    && Describes(s, t, m, page)
    && page in t && Fits(t, m, page) && t[page] == Block(i, false)
  }

  /** Taking the first block off its list. */
  function Popped(s: Tables, n: nat): Tables
    requires n < |s.pageList| && s.pageList[n] != []
  {
    s.(pageList := s.pageList[n := s.pageList[n][1..]])
  }

  /** Handing the upper half h of a split block to the list of order i. */
  function Halved(s: Tables, h: nat, i: nat): Tables
    requires h < |s.order| == |s.onList| && i < |s.pageList|
  {
    Tables(s.order[h := i], s.onList[h := true], s.pageList[i := [h] + s.pageList[i]])
  }

  /** Taking the free buddy b off its list and continuing at the lower of the two heads. */
  function Joined(s: Tables, b: nat, low: nat, i: nat): Tables
    requires b < |s.order| == |s.onList| && low < |s.order|
    requires i < |s.pageList| && NoDup(s.pageList[i])
  {
    var o := s.order[b := 0];
    Tables(o[low := o[low] % LIVE_FLAG], s.onList[b := false], s.pageList[i := Unlink(s.pageList[i], b)])
  }

  lemma PoppedWorks(s: Tables, t: Tiling, m: Arena, n: nat)
    requires Describes(s, t, m, -1) && n <= m.top && s.pageList[n] != []
    ensures var page := s.pageList[n][0];
            && page in t && t[page] == Block(n, true)
            && Working(Popped(s, n), Take(t, page), m, page, n)
  {
    var page := s.pageList[n][0];
    assert ListOk(s.pageList[n], t, n) && page in s.pageList[n];
    assert Fits(t, m, page);
    var s', u := Popped(s, n), Take(t, page);
    TakeGood(t, m, page);
    forall i | 0 <= i <= m.top
      ensures ListOk(s'.pageList[i], u, i)
    {
      ListTake(s.pageList[i], t, i, page);
    }
    assert Fits(u, m, page);
    forall a | a in u && a != page
      ensures Fits(u, m, a) && s'.order[a] == Entry(u[a])
      ensures u[a].free && u[a].order < m.top ==> s'.onList[a]
    {
      assert Fits(t, m, a);
    }
  }

  lemma HalvedLists(s: Tables, t: Tiling, m: Arena, page: nat, i: nat)
    requires Working(s, t, m, page, i + 1) && page + Pow2(i) < |s.order|
    ensures ListsOk(Halved(s, page + Pow2(i), i), Split(t, page), m)
  {
    var lists := Halved(s, page + Pow2(i), i).pageList;
    forall j | 0 <= j <= m.top
      ensures ListOk(lists[j], Split(t, page), j)
    {
      ListSplit(s.pageList[j], t, m, j, page);
    }
  }

  lemma HalvedHeads(s: Tables, t: Tiling, m: Arena, page: nat, i: nat)
    requires Working(s, t, m, page, i + 1) && page + Pow2(i) < |s.order|
    requires Tiles(Split(t, page), m)
    ensures HeadsOk(Halved(s, page + Pow2(i), i), Split(t, page), m, page)
  {
    hide Disjoint, Covered, Coalesced, ListsOk, Pow2, Aligned;
    assert AllFit(Split(t, page), m);
  }

  lemma HalvedWorks(s: Tables, t: Tiling, m: Arena, page: nat, i: nat)
    requires Working(s, t, m, page, i + 1)
    ensures page + Pow2(i) < m.total
    ensures Working(Halved(s, page + Pow2(i), i), Split(t, page), m, page, i)
  {
    SplitGood(t, m, page);
    HalvedLists(s, t, m, page, i);
    HalvedHeads(s, t, m, page, i);
    assert Fits(Split(t, page), m, page);
  }

  lemma JoinedWorks(s: Tables, t: Tiling, m: Arena, page: nat, i: nat)
    requires Working(s, t, m, page, i) && i < m.top && HasFreeBuddy(t, page)
    ensures var b := Buddy(page, i);
            var low := if page < b then page else b;
            && b < m.total && NoDup(s.pageList[i])
            && Working(Joined(s, b, low, i), Merge(t, page), m, low, i + 1)
  {
    var b := Buddy(page, i);
    var low := if page < b then page else b;
    assert ListOk(s.pageList[i], t, i);
    assert Fits(t, m, b);
    var s', u := Joined(s, b, low, i), Merge(t, page);
    BuddyFacts(page, i);
    MergeGood(t, m, page);
    forall j | 0 <= j <= m.top
      ensures ListOk(s'.pageList[j], u, j)
    {
      ListMerge(s.pageList[j], t, m, j, page);
    }
    assert AllFit(u, m);
    forall a | a in u && a != low
      ensures Fits(u, m, a) && s'.order[a] == Entry(u[a])
      ensures u[a].free && u[a].order < m.top ==> s'.onList[a]
    {
      assert a in t && a != page && a != b;
    }
  }

  lemma LiveBlockWorks(s: Tables, t: Tiling, m: Arena, a: nat)
    requires Describes(s, t, m, -1) && a in Live(t)
    ensures Sized(s, m) && a < m.total && s.order[a] % LIVE_FLAG <= m.top
    ensures Working(s, t, m, a, s.order[a] % LIVE_FLAG)
    ensures Live(t) == (Live(t) - {a})[a := s.order[a] % LIVE_FLAG]
  {
    hide Aligned, Pow2, Disjoint, Covered, Coalesced, ListsOk;
    assert Fits(t, m, a);
  }

  /** What the coalescing loop tests on the tables is that the buddy is a free block of order i. */
  lemma BuddyTest(s: Tables, t: Tiling, m: Arena, page: nat, i: nat)
    requires Working(s, t, m, page, i) && i < m.top
    ensures page in t && t[page].order == i && Aligned(page, i) && Sized(s, m)
    ensures var b := Xor(page, Pow2(i));
            && b == Buddy(page, i) && b < m.total
            && (HasFreeBuddy(t, page) <==>
                  s.order[b] % 16 == i && s.order[b] / 16 % 2 == 0 && s.onList[b])
  {
    hide Coalesced, ListsOk, Aligned, Pow2, Tiles, HeadsOk;
    XorIsBuddy(page, i);
    BuddyIsHead(t, m, page);
    BuddyFacts(page, i);
    HeadEntry(s, t, m, page, Buddy(page, i));
  }

  /** What the tables say of a block other than the one in hand. */
  lemma HeadEntry(s: Tables, t: Tiling, m: Arena, page: nat, b: nat)
    requires Describes(s, t, m, page) && b in t && b != page
    ensures b < m.total && t[b].order < 16
    ensures s.order[b] % 16 == t[b].order && (s.order[b] / 16 % 2 == 0 <==> t[b].free)
    ensures t[b].free && t[b].order < m.top ==> s.onList[b]
  {
    assert Fits(t, m, b);
  }

  lemma TakeWorks(s: Tables, t: Tiling, m: Arena, n: nat)
    requires Describes(s, t, m, -1) && n <= m.top && n < |s.pageList| && s.pageList[n] != []
    ensures var page := s.pageList[n][0];
            && page in t && page !in Live(t)
            && Working(Popped(s, n), Take(t, page), m, page, n)
            && Live(Take(t, page)) == Live(t)[page := n]
            && Interval(page, Pow2(n)) <= FreePages(t, m)
  {
    hide Working, Interval, FreePages;
    var page := s.pageList[n][0];
    PoppedWorks(s, t, m, n);
    FreeBlockPages(t, m, page);
    LiveTake(t, page);
  }

  /** Handing the allocated block to the caller. */
  lemma MarkedLive(s: Tables, t: Tiling, m: Arena, page: nat, i: nat)
    requires Working(s, t, m, page, i)
    ensures Describes(Tables(s.order[page := i + LIVE_FLAG], s.onList[page := true], s.pageList), t, m, -1)
  {
  }

  /** Putting the merged block on its free list. */
  lemma MarkedFree(s: Tables, t: Tiling, m: Arena, page: nat, i: nat)
    requires Working(s, t, m, page, i)
    requires i == m.top || !HasFreeBuddy(t, page)
    ensures Describes(Halved(s, page, i), Give(t, page), m, -1)
  {
    var s', u := Halved(s, page, i), Give(t, page);
    GiveGood(t, m, page);
    forall j | 0 <= j <= m.top
      ensures ListOk(s'.pageList[j], u, j)
    {
      ListGive(s.pageList[j], t, j, page);
    }
    forall a | a in u
      ensures Fits(u, m, a) && s'.order[a] == Entry(u[a])
      ensures u[a].free && u[a].order < m.top ==> s'.onList[a]
    {
      assert Fits(t, m, a);
    }
  }

  lemma DescribesSizes(s: Tables, t: Tiling, m: Arena)
    requires Describes(s, t, m, -1)
    ensures Sized(s, m) && Good(t, m)
  {
  }

  lemma WorkingFacts(s: Tables, t: Tiling, m: Arena, page: nat, i: nat)
    requires Working(s, t, m, page, i)
    ensures Sized(s, m) && Good(t, m)
    ensures page in t && page < m.total && Fits(t, m, page) && t[page] == Block(i, false)
  {
  }

  /** The split loop's step on tables and tiling together. */
  lemma SplitStepWorks(s: Tables, t: Tiling, m: Arena, page: nat, i: nat, live: map<nat, nat>)
    requires i > 0 && Working(s, t, m, page, i) && Live(t) == live[page := i]
    ensures Sized(s, m) && page + Pow2(i - 1) < m.total
    ensures page in t && t[page].order == i <= m.top
    ensures Working(Halved(s, page + Pow2(i - 1), i - 1), Split(t, page), m, page, i - 1)
    ensures Live(Split(t, page)) == live[page := i - 1]
  {
    hide Working, Coalesced;
    WorkingFacts(s, t, m, page, i);
    HalvedWorks(s, t, m, page, i - 1);
    LiveSplit(t, m, page);
    UpdateTwice(live, page, i, i - 1);
  }

  /** The coalescing loop's step on tables and tiling together. */
  lemma MergeStepWorks(s: Tables, t: Tiling, m: Arena, page: nat, i: nat, rest: map<nat, nat>)
    requires i < m.top && Working(s, t, m, page, i)
    requires page in t && Aligned(page, t[page].order) && HasFreeBuddy(t, page)
    requires Live(t) == rest[page := i] && page !in rest
    ensures Sized(s, m) && page in t && t[page].order == i && Aligned(page, i)
    ensures var b := Buddy(page, i);
            var low := And(page, b);
            && b < m.total && low < m.total && NoDup(s.pageList[i])
            && Working(Joined(s, b, low, i), Merge(t, page), m, low, i + 1)
            && Live(Merge(t, page)) == rest[low := i + 1] && low !in rest
  {
    hide Working, Coalesced;
    WorkingFacts(s, t, m, page, i);
    JoinedWorks(s, t, m, page, i);
    LiveMerge(t, m, page);
    AndOfBuddies(page, i);
    Moved(rest, page, i, And(page, Buddy(page, i)), i + 1);
    assert Buddy(page, i) !in Live(t);
  }

  lemma GiveWorks(s: Tables, t: Tiling, m: Arena, page: nat, k: nat, rest: map<nat, nat>)
    requires Working(s, t, m, page, k)
    requires k == m.top || (page in t && Aligned(page, t[page].order) && !HasFreeBuddy(t, page))
    requires Live(t) == rest[page := k] && page !in rest
    ensures Sized(s, m) && page in t && page < m.total && k <= m.top
    ensures Describes(Halved(s, page, k), Give(t, page), m, -1)
    ensures Live(Give(t, page)) == rest
  {
    hide Working, Describes, Coalesced;
    WorkingFacts(s, t, m, page, k);
    MarkedFree(s, t, m, page, k);
    LiveGive(t, page);
    Moved(rest, page, k, page, k);
  }

  class PageAllocator {
    const arena: Arena
    const order: array<nat>
    const onList: array<bool>
    const count: array<nat>
    var pageList: seq<seq<nat>>
    ghost var t: Tiling

    ghost function State(): Tables
      reads this, order, onList
    {
      Tables(order[..], onList[..], pageList)
    }

    ghost predicate Valid()
      reads this, order, onList
    {
      && order != count
      && count.Length == order.Length
      && Describes(State(), t, arena, -1)
    }

    /** All memory starts out free, as top-order blocks; the tail shorter than one is not managed. */
    constructor (pages: nat, top: nat)
      requires top < LIVE_FLAG
      ensures Valid() && fresh(order) && fresh(onList) && fresh(count)
      ensures arena.top == top && order.Length == pages
      ensures arena.total <= pages < arena.total + Pow2(top)
      ensures t == Initial(arena)
      ensures forall p :: 0 <= p < pages ==> count[p] == 0
    {
      hide Describes, TopBlocks, Initial, EntryCount, Times;
      var size := Pow2(top);
      var entries := EntryCount(pages, size);
      arena := Arena(Times(entries, size), top);
      order := new nat[pages](_ => 0);
      onList := new bool[pages](_ => false);
      count := new nat[pages](_ => 0);
      pageList := seq(top + 1, _ => []);
      t := Initial(Arena(Times(entries, size), top));
      new;
      TopBlocksNone(State(), top);
      Populate(size, entries);
      TopBlocksDescribe(State(), arena);
    }

    /** Puts the top-order blocks on their list, one after the other. */
    method Populate(size: nat, entries: nat)
      requires order != count && order.Length == onList.Length == count.Length
      requires size == Pow2(arena.top) && arena.total == Times(entries, size) <= order.Length
      requires TopBlocks(State(), arena.top, 0)
      requires forall p :: 0 <= p < count.Length ==> count[p] == 0
      modifies this`pageList, order, onList, count
      ensures TopBlocks(State(), arena.top, arena.total)
      ensures forall p :: 0 <= p < count.Length ==> count[p] == 0
    {
      hide TopBlocks;
      var addr, j := 0, 0;
      while j < entries
        invariant 0 <= j <= entries && addr == Times(j, size)
        invariant TopBlocks(State(), arena.top, addr)
        invariant forall p :: 0 <= p < count.Length ==> count[p] == 0
      {
        TimesMore(j, size);
        TimesMonotone(j + 1, entries, size);
        ghost var s := State();
        TopBlocksNext(s, arena.top, addr);
        order[addr] := arena.top;
        pageList := pageList[arena.top := [addr] + pageList[arena.top]];
        onList[addr] := false;
        count[addr] := 0;
        assert State() == Tables(s.order[addr := arena.top], s.onList[addr := false], pageList);
        addr := addr + size;
        j := j + 1;
      }
    }

    /** The smallest order whose blocks hold memSize bytes. */
    method OrderFor(memSize: nat) returns (k: nat)
      ensures k <= arena.top + 1
      ensures k <= arena.top ==> PAGE_SIZE * Pow2(k) >= memSize
      ensures forall i :: 0 <= i < k ==> PAGE_SIZE * Pow2(i) < memSize
    {
      k := 0;
      while k <= arena.top && PAGE_SIZE * Pow2(k) < memSize
        invariant k <= arena.top + 1
        invariant forall i :: 0 <= i < k ==> PAGE_SIZE * Pow2(i) < memSize
      {
        k := k + 1;
      }
    }

    /** The first non-empty list from the given order upwards. */
    method FindList(need: nat) returns (n: nat)
      requires |pageList| == arena.top + 1 && need <= arena.top + 1
      ensures need <= n <= arena.top + 1
      ensures forall i :: need <= i < n ==> pageList[i] == []
      ensures n <= arena.top ==> pageList[n] != []
    {
      n := need;
      while n <= arena.top && pageList[n] == []
        invariant need <= n <= arena.top + 1
        invariant forall i :: need <= i < n ==> pageList[i] == []
      {
        n := n + 1;
      }
    }

    /** Takes the first block of the smallest sufficient non-empty list and splits it down; fails
        exactly when every sufficient list is empty. */
    method Alloc(memSize: nat) returns (r: Option<nat>, ghost k: nat)
      requires Valid()
      modifies this`pageList, this`t, order, onList, count
      ensures Valid()
      ensures k <= arena.top + 1 && (k <= arena.top ==> PAGE_SIZE * Pow2(k) >= memSize)
      ensures forall i :: 0 <= i < k ==> PAGE_SIZE * Pow2(i) < memSize
      ensures r.None? <==> forall i :: k <= i <= arena.top ==> old(pageList)[i] == []
      ensures r.None? ==> t == old(t) && State() == old(State()) && count[..] == old(count[..])
      ensures r.Some? ==> exists n :: FirstFit(old(pageList), k, n, r.value)
      ensures r.Some? ==> Allocated(old(t), t, arena, r.value, k)
      ensures r.Some? ==> r.value < count.Length && count[r.value] == 0
      ensures OnlyZeroedIn(old(count[..]), count[..], FreePages(old(t), arena))
    {
      var need := OrderFor(memSize);
      k := need;
      var n := FindList(need);
      if n > arena.top {
        return None, k;
      }
      var page := pageList[n][0];
      assert FirstFit(old(pageList), k, n, page);
      Carve(n, need, page);
      r := Some(page);
    }

    /** Takes the first block off list n and splits it down to the needed order. */
    method Carve(n: nat, need: nat, page: nat)
      requires Valid() && need <= n <= arena.top && pageList[n] != [] && page == pageList[n][0]
      modifies this`pageList, this`t, order, onList, count
      ensures Valid() && Allocated(old(t), t, arena, page, need)
      ensures page < count.Length && count[page] == 0
      ensures OnlyZeroedIn(old(count[..]), count[..], FreePages(old(t), arena))
    {
      hide Describes, Working, FreePages, Take, Live, Tiles;
      ghost var live, free, c0 := Live(t), FreePages(t, arena), count[..];
      DescribesSizes(State(), t, arena);
      TakeWorks(State(), t, arena, n);
      pageList := pageList[n := pageList[n][1..]];
      t := Take(t, page);
      var i, size := n, Pow2(n);
      while i > need
        invariant need <= i <= n && size == Pow2(i)
        invariant Working(State(), t, arena, page, i)
        invariant Live(t) == live[page := i]
        invariant Interval(page, Pow2(i)) <= free
        invariant OnlyZeroedIn(c0, count[..], free)
      {
        size := size / 2;
        HalfInterval(page, i);
        ZeroOne(c0, count[..], free, page + size);
        SplitStep(page, i, size, live);
        i := i - 1;
      }
      assert page in Interval(page, Pow2(need));
      ZeroOne(c0, count[..], free, page);
      HandOver(page, need);
    }

    /** One turn of the split loop: the upper half of the taken block goes to its own list. */
    method SplitStep(page: nat, i: nat, half: nat, ghost live: map<nat, nat>)
      requires order != count && count.Length == order.Length
      requires i > 0 && Working(State(), t, arena, page, i) && half == Pow2(i - 1)
      requires Live(t) == live[page := i]
      modifies this`pageList, this`t, order, onList, count
      ensures Working(State(), t, arena, page, i - 1)
      ensures page + half < count.Length && count[..] == old(count[..])[page + half := 0]
      ensures Live(t) == live[page := i - 1]
    {
      hide Working, Split, Live;
      ghost var s := State();
      SplitStepWorks(s, t, arena, page, i, live);
      pageList := pageList[i - 1 := [page + half] + pageList[i - 1]];
      order[page + half] := i - 1;
      onList[page + half] := true;
      count[page + half] := 0;
      t := Split(t, page);
      assert State() == Halved(s, page + half, i - 1);
    }

    /** Marks the block that is left as allocated. */
    method HandOver(page: nat, need: nat)
      requires order != count && count.Length == order.Length
      requires Working(State(), t, arena, page, need)
      modifies order, onList, count
      ensures Valid()
      ensures page < count.Length && count[..] == old(count[..])[page := 0]
    {
      hide Working, Describes;
      ghost var s := State();
      WorkingFacts(s, t, arena, page, need);
      MarkedLive(s, t, arena, page, need);
      order[page] := need + LIVE_FLAG;
      onList[page] := true;
      count[page] := 0;
      assert State() == Tables(s.order[page := need + LIVE_FLAG], s.onList[page := true], s.pageList);
    }

    /** Returns an allocated block and merges it with free buddies as far up as possible. */
    method Free(addr: nat)
      requires Valid()
      requires addr in Live(t)
      modifies this`pageList, this`t, order, onList
      ensures Valid()
      ensures Live(t) == Live(old(t)) - {addr}
      ensures InFront(t, pageList, addr)
    {
      hide Working, Describes, HasFreeBuddy, InFront;
      ghost var rest := Live(t) - {addr};
      LiveBlockWorks(State(), t, arena, addr);
      var k: nat := order[addr] % LIVE_FLAG;
      var page: nat, i, stop := addr, k, false;
      while i < arena.top && !stop
        invariant Working(State(), t, arena, page, k) && page <= addr < page + Pow2(k)
        invariant k <= i && (!stop ==> k == i)
        invariant stop ==> page in t && Aligned(page, t[page].order) && !HasFreeBuddy(t, page)
        invariant i >= arena.top && !stop ==> k == arena.top
        invariant Live(t) == rest[page := k] && page !in rest
        decreases arena.top - i
      {
        ghost var s := State();
        BuddyTest(s, t, arena, page, i);
        var b := Xor(page, Pow2(i));
        if order[b] % 16 == i && order[b] / 16 % 2 == 0 && onList[b] {
          MergedHolds(page, i);
          page := MergeStep(page, b, i, rest);
          k := i + 1;
        } else {
          stop := true;
        }
        i := i + 1;
      }
      TakeBack(page, k, rest);
      IsInFront(t, pageList, page, addr);
    }

    /** Puts the merged block on its free list. */
    method TakeBack(page: nat, k: nat, ghost rest: map<nat, nat>)
      requires order != count && count.Length == order.Length
      requires Working(State(), t, arena, page, k)
      requires k == arena.top || (page in t && Aligned(page, t[page].order) && !HasFreeBuddy(t, page))
      requires Live(t) == rest[page := k] && page !in rest
      modifies this`pageList, this`t, order, onList
      ensures Valid()
      ensures Live(t) == rest
      ensures page in t && t[page] == Block(k, true) && k < |pageList| && pageList[k] != [] && pageList[k][0] == page
    {
      hide Working, Describes, HasFreeBuddy, Live, Give;
      ghost var s := State();
      WorkingBlock(s, t, arena, page, k);
      GiveWorks(s, t, arena, page, k, rest);
      pageList := pageList[k := [page] + pageList[k]];
      onList[page] := true;
      order[page] := k;
      t := Give(t, page);
      assert State() == Halved(s, page, k);
    }

    /** One turn of the coalescing loop: unlink the free buddy and continue at the merged head. */
    method MergeStep(page: nat, b: nat, i: nat, ghost rest: map<nat, nat>) returns (low: nat)
      requires i < arena.top && Working(State(), t, arena, page, i)
      requires page in t && Aligned(page, t[page].order) && HasFreeBuddy(t, page)
      requires Aligned(page, i) && b == Buddy(page, i)
      requires Live(t) == rest[page := i] && page !in rest
      modifies this`pageList, this`t, order, onList
      ensures Working(State(), t, arena, low, i + 1)
      ensures Live(t) == rest[low := i + 1] && low !in rest && low == And(page, b)
    {
      hide Working, HasFreeBuddy, Live, Merge, Buddy;
      ghost var s := State();
      MergeStepWorks(s, t, arena, page, i, rest);
      pageList := pageList[i := Unlink(pageList[i], b)];
      order[b] := 0;
      onList[b] := false;
      low := And(page, b);
      order[low] := order[low] % LIVE_FLAG;
      t := Merge(t, page);
      assert State() == Joined(s, b, low, i);
    }

    /** Freeing every allocated block, in whatever order, restores the initial blocks. */
    method FreeAll(blocks: seq<nat>)
      requires Valid() && NoDup(blocks) && forall a :: a in blocks <==> a in Live(t)
      modifies this`pageList, this`t, order, onList
      ensures Valid() && t == Initial(arena)
    {
      hide Describes;
      var i := 0;
      while i < |blocks|
        invariant 0 <= i <= |blocks| && Valid()
        invariant forall a :: a in blocks[i..] <==> a in Live(t)
      {
        assert blocks[i] in blocks[i..];
        assert blocks[i..] == [blocks[i]] + blocks[i + 1..];
        assert blocks[i] !in blocks[i + 1..];
        Free(blocks[i]);
        i := i + 1;
      }
      DescribesSizes(State(), t, arena);
      assert Live(t) == map[];
      AllFreedIsInitial(t, arena);
    }

    /** Bytes on the free lists; with the allocated bytes they add up to the managed memory. */
    method FreeMem() returns (tot: nat)
      requires Valid()
      ensures tot == PAGE_SIZE * |FreePages(t, arena)|
      ensures tot + PAGE_SIZE * |LivePages(t, arena)| == PAGE_SIZE * arena.total
    {
      tot := 0;
      var i := 0;
      while i <= arena.top
        invariant 0 <= i <= arena.top + 1
        invariant tot == PAGE_SIZE * FreeUnits(t, i)
      {
        assert ListOk(pageList[i], t, i);
        NoDupSize(pageList[i], FreeHeads(t, i));
        WeighList(|pageList[i]|, Pow2(i));
        tot := tot + PAGE_SIZE * Pow2(i) * |pageList[i]|;
        i := i + 1;
      }
      Conservation(t, arena, i);
    }
  }

  /** The free block that now holds the page stands first on its list. */
  ghost predicate InFront(t: Tiling, lists: seq<seq<nat>>, addr: nat) {
    exists p: nat :: Covers(t, p, addr) && t[p].free && t[p].order < |lists| && lists[t[p].order] != [] && lists[t[p].order][0] == p
  }

  lemma IsInFront(t: Tiling, lists: seq<seq<nat>>, p: nat, addr: nat)
    requires p in t && t[p].free && t[p].order < |lists| && lists[t[p].order] != [] && lists[t[p].order][0] == p
    requires p <= addr < p + Pow2(t[p].order)
    ensures InFront(t, lists, addr)
  {
    assert Covers(t, p, addr);
  }

  lemma MergedHolds(page: nat, i: nat)
    requires Aligned(page, i)
    ensures And(page, Buddy(page, i)) <= page && page + Pow2(i) <= And(page, Buddy(page, i)) + Pow2(i + 1)
  {
    AndOfBuddies(page, i);
    BuddyFacts(page, i);
  }

  lemma WorkingBlock(s: Tables, t: Tiling, m: Arena, page: nat, i: nat)
    requires Working(s, t, m, page, i)
    ensures page in t && t[page] == Block(i, false) && Give(t, page) == t[page := Block(i, true)]
  {
  }

  lemma UpdateTwice(m: map<nat, nat>, a: nat, x: nat, y: nat)
    ensures m[a := x][a := y] == m[a := y]
  {
  }

  lemma Moved(m: map<nat, nat>, a: nat, x: nat, b: nat, y: nat)
    requires a !in m
    ensures m[a := x] - {a} == m && (m[a := x] - {a})[b := y] == m[b := y]
  {
  }

  /** Which block first fit picks: the head of the first non-empty list from order k upwards. */
  ghost predicate FirstFit(lists: seq<seq<nat>>, k: nat, n: nat, a: nat) {
    && k <= n < |lists| && lists[n] != [] && a == lists[n][0]
    && forall i :: k <= i < n ==> lists[i] == []
  }

  /** The effect of an allocation: one more allocated block, over pages that were free. */
  ghost predicate Allocated(before: Tiling, after: Tiling, m: Arena, a: nat, k: nat) {
    && a !in Live(before) && Live(after) == Live(before)[a := k]
    && Interval(a, Pow2(k)) <= FreePages(before, m)
  }

  lemma HalfInterval(a: nat, i: nat)
    requires i > 0
    ensures Pow2(i) / 2 == Pow2(i - 1)
    ensures a + Pow2(i - 1) in Interval(a, Pow2(i))
    ensures Interval(a, Pow2(i - 1)) <= Interval(a, Pow2(i))
  {
  }

  /** The counts differ only by being reset to zero at pages of s. */
  ghost predicate OnlyZeroedIn(before: seq<nat>, after: seq<nat>, s: set<nat>) {
    && |before| == |after|
    && forall p :: 0 <= p < |after| && after[p] != before[p] ==> after[p] == 0 && p in s
  }

  lemma ZeroOne(c0: seq<nat>, c: seq<nat>, s: set<nat>, p: nat)
    requires OnlyZeroedIn(c0, c, s) && p in s
    ensures p < |c| ==> OnlyZeroedIn(c0, c[p := 0], s)
  {
  }

  /** The tables while initialisation has listed the top-order blocks below addr. */
  ghost predicate TopBlocks(s: Tables, top: nat, addr: nat) {
    && |s.pageList| == top + 1 && (forall i :: 0 <= i < top ==> s.pageList[i] == [])
    && Aligned(addr, top) && addr <= |s.order| == |s.onList|
    && NoDup(s.pageList[top])
    && (forall x :: x in s.pageList[top] <==> 0 <= x < addr && Aligned(x, top))
    && (forall x :: x in s.pageList[top] ==> s.order[x] == top)
  }

  lemma TopBlocksNone(s: Tables, top: nat)
    requires s.pageList == seq(top + 1, _ => []) && |s.order| == |s.onList|
    ensures TopBlocks(s, top, 0)
  {
    ZeroAligned(top);
  }

  lemma TopBlocksNext(s: Tables, top: nat, addr: nat)
    requires TopBlocks(s, top, addr) && addr + Pow2(top) <= |s.order|
    ensures |s.pageList| == top + 1 && |s.order| == |s.onList|
    ensures TopBlocks(Tables(s.order[addr := top], s.onList[addr := false],
                             s.pageList[top := [addr] + s.pageList[top]]), top, addr + Pow2(top))
  {
    NextAligned(addr, top);
  }

  lemma TopBlocksDescribe(s: Tables, m: Arena)
    requires TopBlocks(s, m.top, m.total) && m.top < LIVE_FLAG
    ensures Describes(s, Initial(m), m, -1)
  {
    var t := Initial(m);
    InitialGood(m);
    forall a | a in t
      ensures Fits(t, m, a) && s.order[a] == Entry(t[a])
    {
      assert AllFit(t, m);
      assert a in s.pageList[m.top];
    }
    forall i | 0 <= i <= m.top
      ensures ListOk(s.pageList[i], t, i)
    {
    }
  }

  lemma WeighList(n: nat, w: nat)
    ensures PAGE_SIZE * w * n == PAGE_SIZE * Times(n, w)
  {
    TimesIsProduct(n, w);
  }

  /** How many whole blocks fit. */
  function EntryCount(pages: nat, size: nat): (e: nat)
    requires size > 0
    ensures Times(e, size) <= pages < Times(e, size) + size
  {
    TimesIsProduct(pages / size, size);
    pages / size
  }

  lemma NextAligned(a: nat, k: nat)
    requires Aligned(a, k)
    ensures Aligned(a + Pow2(k), k)
    ensures forall x: nat :: Aligned(x, k) ==> (x < a + Pow2(k) <==> x <= a)
  {
    Pow2Aligned(k, k);
    AlignedSum(a, Pow2(k), k);
    forall x: nat | Aligned(x, k)
      ensures x < a + Pow2(k) <==> x <= a
    {
      if x > a { AlignedApart(a, x, k); }
    }
  }

  lemma FreeBlockPages(t: Tiling, m: Arena, a: nat)
    requires Tiles(t, m) && a in t && t[a].free
    ensures Interval(a, Pow2(t[a].order)) <= FreePages(t, m)
  {
    assert Fits(t, m, a);
    forall p | p in Interval(a, Pow2(t[a].order))
      ensures p in FreePages(t, m)
    {
      assert a in FreeBlocks(t) && Covers(t, a, p);
    }
  }
}
