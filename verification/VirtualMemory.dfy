/** The address-space operations of virtual_memory/vm.c on top of the page allocator: fork with
    copy-on-write sharing, the page-fault handler, exec's release and exit's. */
module VirtualMemory {
  import opened Basics
  import opened Bits
  import opened BuddyTiling
  import BuddyAllocator
  import opened AddressSpaces
  import opened SpaceCopies

  const STACK_ORDER: nat := 1
  const STACK_SIZE: nat := 8192

  /** The blocks owed to single pages, to two-page kernel stacks, and to the rest of the kernel. */
  ghost function Blocks(pages: set<nat>, stacks: set<nat>, other: map<nat, nat>): map<nat, nat> {
    map x | x in pages + stacks + other.Keys ::
      if x in pages then 0 else if x in stacks then STACK_ORDER else other[x]
  }

  ghost function PagesUsed(m: Mmu): set<nat> {
    m.dirs.Keys + m.tables.Keys + m.frames.Keys
  }

  /** The allocated blocks are exactly the given pages, the kernel stacks, one for each process, and the
      blocks held elsewhere in the kernel, each for one purpose. */
  ghost predicate Booked(live: map<nat, nat>, pages: set<nat>, stacks: map<nat, nat>, other: map<nat, nat>) {
    && pages !! stacks.Values !! other.Keys
    && (forall d, e :: d in stacks && e in stacks && stacks[d] == stacks[e] ==> d == e)
    && live == Blocks(pages, stacks.Values, other)
  }

  /** The pages are the directories, tables and user frames of the live processes. */
  ghost predicate Accounts(live: map<nat, nat>, m: Mmu, stacks: map<nat, nat>, other: map<nat, nat>) {
    && m.dirs.Keys !! m.tables.Keys !! m.frames.Keys
    && Booked(live, PagesUsed(m), stacks, other)
  }

  /** The pages of the blocks held by the rest of the kernel. */
  ghost function Elsewhere(other: map<nat, nat>, a: Arena): set<nat> {
    set p | p in Interval(0, a.total) && InBlocks(other, p)
  }

  /** No page leaks: the free pages are all pages but one for each directory, table and user frame, two for
      each kernel stack, and those of the rest of the kernel. */
  lemma FreeIsRest(t: Tiling, a: Arena, m: Mmu, stacks: map<nat, nat>, other: map<nat, nat>)
    requires Tiles(t, a) && Accounts(Live(t), m, stacks, other)
    ensures |FreePages(t, a)| + |m.dirs| + |m.tables| + |m.frames| + 2 * |stacks| + |Elsewhere(other, a)| == a.total
  {
    hide Tiles, FreePages, PagesOf, Elsewhere, Accounts, Live, LiveBlocks, PagesUsed, Times, Pow2;
    var pages, pairs, rest := PagesUsed(m), stacks.Values, other.Keys;
    LiveSplits(t, m, stacks, other);
    PagesPartition(t, a);
    assert LivePages(t, a) == PagesOf(t, a, pages + pairs + rest);
    DisjointPages(t, a, pages, pairs);
    DisjointPages(t, a, pages + pairs, rest);
    OnesAndTwos(t, a, pages, pairs);
    KernelPages(t, a, m, stacks, other);
  }

  lemma LiveSplits(t: Tiling, m: Mmu, stacks: map<nat, nat>, other: map<nat, nat>)
    requires Accounts(Live(t), m, stacks, other)
    ensures PagesUsed(m) !! stacks.Values && (PagesUsed(m) + stacks.Values) !! other.Keys
    ensures LiveBlocks(t) == PagesUsed(m) + stacks.Values + other.Keys
    ensures PagesUsed(m) <= t.Keys && forall x :: x in PagesUsed(m) ==> t[x].order == 0
    ensures stacks.Values <= t.Keys && forall x :: x in stacks.Values ==> t[x].order == STACK_ORDER
    ensures |PagesUsed(m)| == |m.dirs| + |m.tables| + |m.frames|
    ensures |stacks.Values| == |stacks|
  {
    LivePagesUsed(t, m, stacks, other);
    ValuesCount(stacks);
    UsedCount(m.dirs.Keys, m.tables.Keys, m.frames.Keys);
    assert |m.dirs| == |m.dirs.Keys| && |m.tables| == |m.tables.Keys| && |m.frames| == |m.frames.Keys|;
  }

  lemma LivePagesUsed(t: Tiling, m: Mmu, stacks: map<nat, nat>, other: map<nat, nat>)
    requires PagesUsed(m) !! stacks.Values !! other.Keys
    requires Live(t) == Blocks(PagesUsed(m), stacks.Values, other)
    ensures LiveBlocks(t) == PagesUsed(m) + stacks.Values + other.Keys
    ensures PagesUsed(m) <= t.Keys && forall x :: x in PagesUsed(m) ==> t[x].order == 0
    ensures stacks.Values <= t.Keys && forall x :: x in stacks.Values ==> t[x].order == STACK_ORDER
  {
    hide PagesUsed;
    assert LiveBlocks(t) == Live(t).Keys;
    assert forall x :: x in Live(t) ==> Live(t)[x] == t[x].order;
  }

  lemma UsedCount(a: set<nat>, b: set<nat>, c: set<nat>)
    requires a !! b !! c
    ensures |a + b + c| == |a| + |b| + |c|
  {
    assert |a + b| == |a| + |b|;
  }

  lemma OnesAndTwos(t: Tiling, a: Arena, pages: set<nat>, pairs: set<nat>)
    requires Tiles(t, a) && pages <= t.Keys && pairs <= t.Keys
    requires forall x :: x in pages ==> t[x].order == 0
    requires forall x :: x in pairs ==> t[x].order == STACK_ORDER
    ensures |PagesOf(t, a, pages)| == |pages| && |PagesOf(t, a, pairs)| == 2 * |pairs|
  {
    hide Tiles, PagesOf, Times;
    PagesOfOrder(t, a, pages, 0);
    PagesOfOrder(t, a, pairs, STACK_ORDER);
    TimesIsProduct(|pages|, 1);
    TimesIsProduct(|pairs|, 2);
    assert Pow2(0) == 1 && Pow2(1) == 2;
  }

  lemma KernelPages(t: Tiling, a: Arena, m: Mmu, stacks: map<nat, nat>, other: map<nat, nat>)
    requires Accounts(Live(t), m, stacks, other)
    ensures PagesOf(t, a, other.Keys) == Elsewhere(other, a)
  {
    assert forall x :: x in other ==> x in Live(t) && Live(t)[x] == other[x];
    forall p | p in Interval(0, a.total)
      ensures Holds(t, other.Keys, p) <==> InBlocks(other, p)
    {
      if Holds(t, other.Keys, p) {
        var x: nat :| x in other.Keys && Covers(t, x, p);
        assert x in other && x <= p < x + Pow2(other[x]);
      }
      if InBlocks(other, p) {
        var x: nat :| x in other && x <= p < x + Pow2(other[x]);
        assert x in other.Keys && Covers(t, x, p);
      }
    }
  }

  lemma {:induction false} ValuesCount(stacks: map<nat, nat>)
    requires forall d, e :: d in stacks && e in stacks && stacks[d] == stacks[e] ==> d == e
    ensures |stacks.Values| == |stacks|
    decreases |stacks|
  {
    if stacks == map[] {
      assert stacks.Values == {};
    } else {
      var d :| d in stacks;
      var rest := stacks - {d};
      ValuesCount(rest);
      assert rest.Values == stacks.Values - {stacks[d]} by {
        forall x | x in stacks.Values && x != stacks[d]
          ensures x in rest.Values
        {
          var e :| e in stacks && stacks[e] == x;
          assert e in rest && rest[e] == x;
        }
      }
      assert |rest| == |rest.Keys| && rest.Keys == stacks.Keys - {d};
      assert |stacks| == |stacks.Keys|;
    }
  }

  lemma FrameBooked(live: map<nat, nat>, m: Mmu, stacks: map<nat, nat>, other: map<nat, nat>, f: nat)
    requires Accounts(live, m, stacks, other) && f in m.frames
    ensures f in live && live[f] == 0
  {
  }

  /** In every valid state the count of a frame is the number of user entries that name it, it is positive
      if and only if the frame is a user frame, user frames are allocated pages, and a writable entry is
      the frame's only one. */
  lemma ExactCounts(live: map<nat, nat>, m: Mmu, stacks: map<nat, nat>, other: map<nat, nat>, f: nat)
    requires Inv(m) && Accounts(live, m, stacks, other) && f < |m.count|
    ensures m.count[f] == |Refs(m.tables, f)|
    ensures m.count[f] > 0 <==> f in m.frames
    ensures f in m.frames ==> f in live && live[f] == 0
    ensures forall t: nat, j: nat :: Names(m.tables, t, j, f) && m.tables[t][j].writable ==> Refs(m.tables, f) == {(t, j)}
  {
    hide Blocks, SlotsOk, Owned;
    if f in m.frames { FrameBooked(live, m, stacks, other, f); }
    if m.count[f] > 0 {
      var r :| r in Refs(m.tables, f);
      assert Names(m.tables, r.0, r.1, f);
    }
    forall t: nat, j: nat | Names(m.tables, t, j, f) && m.tables[t][j].writable
      ensures Refs(m.tables, f) == {(t, j)}
    {
      NamesCounted(m, t, j, f);
      forall r | r in Refs(m.tables, f)
        ensures r == (t, j)
      {
        SoleNoRival(m, t, j, r.0, r.1, f);
      }
    }
  }

  lemma BlocksAdd(pages: set<nat>, stacks: set<nat>, other: map<nat, nat>, a: nat, k: nat)
    requires a !in Blocks(pages, stacks, other)
    ensures Blocks(pages + {a}, stacks, other) == Blocks(pages, stacks, other)[a := 0]
    ensures Blocks(pages, stacks, other[a := k]) == Blocks(pages, stacks, other)[a := k]
    ensures a !in pages && a !in stacks && a !in other
  {
  }

  lemma BlocksRemove(pages: set<nat>, stacks: set<nat>, other: map<nat, nat>, a: nat)
    requires pages !! stacks !! other.Keys
    ensures a in pages ==> Blocks(pages - {a}, stacks, other) == Blocks(pages, stacks, other) - {a}
    ensures a in stacks ==> Blocks(pages, stacks - {a}, other) == Blocks(pages, stacks, other) - {a}
    ensures a in pages + stacks ==> a in Blocks(pages, stacks, other)
  {
  }

  /** A block just taken may be booked as a page or as held elsewhere. */
  lemma BookNew(live: map<nat, nat>, pages: set<nat>, stacks: map<nat, nat>, other: map<nat, nat>, a: nat, k: nat)
    requires Booked(live, pages, stacks, other) && a !in live
    ensures a !in pages && a !in other
    ensures Booked(live[a := 0], pages + {a}, stacks, other)
    ensures Booked(live[a := k], pages, stacks, other[a := k])
  {
    BlocksAdd(pages, stacks.Values, other, a, k);
    hide Blocks;
  }

  lemma Unbook(live: map<nat, nat>, pages: set<nat>, stacks: map<nat, nat>, other: map<nat, nat>, a: nat)
    requires Booked(live, pages, stacks, other) && a in pages
    ensures a in live && Booked(live - {a}, pages - {a}, stacks, other)
  {
    BlocksRemove(pages, stacks.Values, other, a);
    hide Blocks;
  }

  lemma FreeNotLive(t: Tiling, a: Arena, p: nat)
    requires Tiles(t, a) && p in FreePages(t, a)
    ensures p !in Live(t)
  {
    hide Tiles, FreePages, LivePages;
    LivePagesByMap(t, a, p);
    PagesPartition(t, a);
  }

  /** Pages with references are not free pages. */
  lemma CountedNotFree(t: Tiling, a: Arena, m: Mmu, stacks: map<nat, nat>, other: map<nat, nat>, p: nat)
    requires Tiles(t, a) && Inv(m) && Accounts(Live(t), m, stacks, other)
    requires p < |m.count| && p in FreePages(t, a)
    ensures m.count[p] == 0
  {
    hide Tiles, FreePages, Live;
    FreeNotLive(t, a, p);
    assert p !in m.frames;
    assert Refs(m.tables, p) == {};
  }

  lemma NoListsNoFree(s: BuddyAllocator.Tables, t: Tiling, a: Arena, k: nat)
    requires BuddyAllocator.Describes(s, t, a, -1) && k == 0
    requires forall i :: k <= i <= a.top ==> s.pageList[i] == []
    ensures FreePages(t, a) == {}
  {
    forall x | x in t
      ensures !t[x].free
    {
      assert Fits(t, a, x);
      assert BuddyAllocator.ListOk(s.pageList[t[x].order], t, t[x].order);
    }
    assert FreeBlocks(t) == {};
  }

  /** The reset of counts at allocated pages changes nothing: those pages had count zero. */
  lemma CountsKept(t: Tiling, a: Arena, m: Mmu, stacks: map<nat, nat>, other: map<nat, nat>, after: seq<nat>)
    requires Tiles(t, a) && Inv(m) && Accounts(Live(t), m, stacks, other)
    requires BuddyAllocator.OnlyZeroedIn(m.count, after, FreePages(t, a))
    ensures after == m.count
  {
    hide Tiles, Inv, Accounts, FreePages;
    forall p | 0 <= p < |after|
      ensures after[p] == m.count[p]
    {
      if after[p] != m.count[p] { CountedNotFree(t, a, m, stacks, other, p); }
    }
  }

  lemma NothingMapped(m: Mmu, live: map<nat, nat>)
    requires m.dirs == map[] && m.tables == map[] && m.frames == map[]
    requires forall p :: 0 <= p < |m.count| ==> m.count[p] == 0
    ensures Inv(m) && Accounts(live, m, map[], live)
  {
    forall f | 0 <= f < |m.count|
      ensures m.count[f] == |Refs(m.tables, f)|
    {
      assert Refs(m.tables, f) == {};
    }
  }

  /** Every process has its low-memory and stack tables and one kernel stack. */
  ghost predicate Complete(dirs: Directories, stacks: map<nat, nat>) {
    && stacks.Keys == dirs.Keys
    && forall d :: d in dirs ==> |dirs[d]| == DIRS && dirs[d][0].Some? && dirs[d][LAST_DIR].Some?
  }

  lemma CompleteFacts(dirs: Directories, stacks: map<nat, nat>, d: nat)
    requires Complete(dirs, stacks) && d in dirs
    ensures |dirs[d]| == DIRS && dirs[d][0].Some? && dirs[d][LAST_DIR].Some? && stacks.Keys == dirs.Keys
  {
  }

  lemma CompleteTable(dirs: Directories, stacks: map<nat, nat>, d: nat, i: nat, t: nat)
    requires Complete(dirs, stacks) && d in dirs && i < DIRS
    ensures |dirs[d]| == DIRS && Complete(dirs[d := dirs[d][i := Some(t)]], stacks)
  {
  }

  /** How process d maps low memory. */
  ghost function LowOf(dirs: Directories, tables: Tables, d: nat): seq<Entry> {
    if d in dirs && |dirs[d]| == DIRS && dirs[d][0].Some? && dirs[d][0].value in tables
       && |tables[dirs[d][0].value]| == ENTRIES
    then tables[dirs[d][0].value][..FIRST_USER]
    else []
  }

  /** Process d has the two pages of its kernel stack, in order, below the end of its half. */
  ghost predicate StackMapped(dirs: Directories, tables: Tables, d: nat, stack: nat) {
    && d in dirs && |dirs[d]| == DIRS && dirs[d][LAST_DIR].Some?
    && var t := dirs[d][LAST_DIR].value;
       && t in tables && |tables[t]| == ENTRIES
       && tables[t][STACK_LOW] == Kernel(stack) && tables[t][STACK_HIGH] == Kernel(stack + 1)
  }

  /** Every process finds its own kernel stack, and all map low memory alike. */
  ghost predicate Homes(dirs: Directories, tables: Tables, stacks: map<nat, nat>) {
    && (forall d :: d in dirs && d in stacks ==> StackMapped(dirs, tables, d, stacks[d]))
    && (forall d, e :: d in dirs && e in dirs ==> LowOf(dirs, tables, d) == LowOf(dirs, tables, e))
  }

  /** The first and the last table of process d, and the kernel's mappings in them, are what they were. */
  ghost predicate HomeStays(m: Mmu, n: Mmu, d: nat) {
    && KernelKept(m.tables, n.tables)
    && d in m.dirs && d in n.dirs && |m.dirs[d]| == |n.dirs[d]| == DIRS
    && n.dirs[d][0] == m.dirs[d][0] && n.dirs[d][LAST_DIR] == m.dirs[d][LAST_DIR]
  }

  lemma HomeStaysJoin(m: Mmu, n: Mmu, q: Mmu, d: nat)
    requires HomeStays(m, n, d) && HomeStays(n, q, d) && m.tables.Keys <= n.tables.Keys
    ensures HomeStays(m, q, d)
  {
    hide KernelKept;
    KernelKeptJoin(m.tables, n.tables, q.tables);
  }

  lemma NoUserThere(m: Mmu, d: nat, i: nat, t: nat, j: nat)
    requires SlotsOk(m) && Owns(m.dirs, d, i, t) && t in m.tables && j < |m.tables[t]| && !UserSlot(i, j)
    ensures !m.tables[t][j].User?
  {
    assert Legal(i, j, m.tables[t][j]);
  }

  lemma LowKept(m: Mmu, n: Mmu, d: nat)
    requires Inv(m) && Inv(n) && HomeStays(m, n, d) && m.dirs[d][0].Some?
    ensures LowOf(n.dirs, n.tables, d) == LowOf(m.dirs, m.tables, d)
  {
    hide Counted, Sole, FramesOk, SlotsOk;
    var t := m.dirs[d][0].value;
    assert Owns(m.dirs, d, 0, t) && Owns(n.dirs, d, 0, t);
    var a, b := m.tables[t], n.tables[t];
    forall j | 0 <= j < FIRST_USER
      ensures b[j] == a[j]
    {
      NoUserThere(m, d, 0, t, j);
      NoUserThere(n, d, 0, t, j);
      assert SameKernel(a, b);
    }
  }

  lemma StackKept(m: Mmu, n: Mmu, d: nat, stack: nat)
    requires Inv(n) && HomeStays(m, n, d) && StackMapped(m.dirs, m.tables, d, stack)
    ensures StackMapped(n.dirs, n.tables, d, stack)
  {
    hide Counted, Sole, FramesOk, SlotsOk;
    var t := m.dirs[d][LAST_DIR].value;
    assert Owns(n.dirs, d, LAST_DIR, t);
    assert SameKernel(m.tables[t], n.tables[t]);
  }

  /** Whatever happens to user pages, and to other processes, leaves a process its home. */
  lemma HomesKept(m: Mmu, n: Mmu, stacks: map<nat, nat>, left: map<nat, nat>)
    requires Inv(m) && Inv(n) && Homes(m.dirs, m.tables, stacks) && Complete(m.dirs, stacks)
    requires forall d :: d in n.dirs ==> HomeStays(m, n, d)
    requires forall d :: d in left ==> d in stacks && left[d] == stacks[d]
    ensures Homes(n.dirs, n.tables, left)
  {
    hide Inv, StackMapped, LowOf, KernelKept;
    forall d | d in n.dirs
      ensures LowOf(n.dirs, n.tables, d) == LowOf(m.dirs, m.tables, d)
      ensures d in left ==> StackMapped(n.dirs, n.tables, d, left[d])
    {
      assert HomeStays(m, n, d);
      LowKept(m, n, d);
      if d in left { StackKept(m, n, d, left[d]); }
    }
  }

  /** Where only user entries change, every home stays. */
  lemma SameDirsHomes(m: Mmu, n: Mmu, stacks: map<nat, nat>)
    requires Inv(m) && Inv(n) && Homes(m.dirs, m.tables, stacks) && Complete(m.dirs, stacks)
    requires n.dirs == m.dirs && KernelKept(m.tables, n.tables)
    ensures Homes(n.dirs, n.tables, stacks)
  {
    hide Inv, Homes, KernelKept;
    HomesKept(m, n, stacks, stacks);
  }

  /** A table more in some slot of directory d. */
  lemma TableHomes(m: Mmu, n: Mmu, stacks: map<nat, nat>, d: nat, i: nat, t: nat)
    requires Inv(m) && Inv(n) && Homes(m.dirs, m.tables, stacks) && Complete(m.dirs, stacks)
    requires d in m.dirs && i < DIRS && |m.dirs[d]| == DIRS && (m.dirs[d][i].Some? ==> m.dirs[d][i].value == t)
    requires n.dirs == m.dirs[d := m.dirs[d][i := Some(t)]] && KernelKept(m.tables, n.tables)
    ensures Homes(n.dirs, n.tables, stacks)
  {
    hide Inv, Homes, KernelKept;
    forall e | e in n.dirs
      ensures HomeStays(m, n, e)
    {
    }
    HomesKept(m, n, stacks, stacks);
  }

  /** A process less. */
  lemma ExitHomes(m: Mmu, n: Mmu, stacks: map<nat, nat>, d: nat)
    requires Inv(m) && Inv(n) && Homes(m.dirs, m.tables, stacks) && Complete(m.dirs, stacks)
    requires n.dirs == m.dirs - {d} && forall t :: t in n.tables ==> t in m.tables && n.tables[t] == m.tables[t]
    ensures Homes(n.dirs, n.tables, stacks - {d})
  {
    hide Inv, Homes;
    KernelKeptSame(m.tables, n.tables);
    hide KernelKept;
    HomesKept(m, n, stacks, stacks - {d});
  }

  /** The user half of process d is gone, its first and last table are not. */
  lemma ReleasedHomes(m: Mmu, n: Mmu, stacks: map<nat, nat>, d: nat)
    requires Inv(m) && Inv(n) && Homes(m.dirs, m.tables, stacks) && Complete(m.dirs, stacks)
    requires Released(m, n, d, DIRS) && KernelKept(m.tables, n.tables)
    ensures Homes(n.dirs, n.tables, stacks)
  {
    hide Inv, Homes, KernelKept, Released;
    ReleasedKeeps(m, n, d);
    forall e | e in n.dirs
      ensures HomeStays(m, n, e)
    {
    }
    HomesKept(m, n, stacks, stacks);
  }

  /** A process more, which has a stack of its own and maps low memory as its parent does. */
  lemma ForkHomes(m: Mmu, n: Mmu, stacks: map<nat, nat>, p: nat, c: nat, a: nat, userspace: bool)
    requires Inv(m) && Inv(n) && Homes(m.dirs, m.tables, stacks) && Complete(m.dirs, stacks) && p in m.dirs
    requires CloneOf(m, n, p, c, userspace) && KernelKept(m.tables, n.tables)
    requires StackMapped(n.dirs, n.tables, c, a)
    ensures Homes(n.dirs, n.tables, stacks[c := a])
  {
    hide Inv, KernelKept, StackMapped, LowOf, Content, KeepsFrames;
    forall d | d in n.dirs && d != c
      ensures LowOf(n.dirs, n.tables, d) == LowOf(m.dirs, m.tables, d) && d in stacks && StackMapped(n.dirs, n.tables, d, stacks[d])
    {
      assert d in m.dirs && HomeStays(m, n, d);
      LowKept(m, n, d);
      StackKept(m, n, d, stacks[d]);
    }
  }

  class Vm {
    const alloc: BuddyAllocator.PageAllocator
    var dirs: Directories
    var tables: Tables
    var frames: map<nat, Page>
    var stacks: map<nat, nat>
    ghost var other: map<nat, nat>

    ghost function State(): Mmu
      reads this, alloc.count
    {
      Mmu(dirs, tables, frames, alloc.count[..])
    }

    ghost predicate Core()
      reads this, alloc, alloc.order, alloc.onList, alloc.count
    {
      && alloc.Valid() && alloc.arena.top >= STACK_ORDER
      && Inv(State())
      && Accounts(Live(alloc.t), State(), stacks, other)
    }

    /** No process yet; whatever is allocated belongs to the rest of the kernel. */
    constructor (alloc: BuddyAllocator.PageAllocator)
      requires alloc.Valid() && alloc.arena.top >= STACK_ORDER
      requires forall p :: 0 <= p < alloc.count.Length ==> alloc.count[p] == 0
      ensures this.alloc == alloc && Valid() && dirs == map[] && stacks == map[] && other == Live(alloc.t)
    {
      this.alloc := alloc;
      dirs, tables, frames, stacks := map[], map[], map[], map[];
      other := Live(alloc.t);
      new;
      NothingMapped(State(), Live(alloc.t));
    }

    ghost function FreeCount(): nat
      reads alloc
    {
      |FreePages(alloc.t, alloc.arena)|
    }

    /** One page from the allocator; no count and no entry is disturbed. */
    method TakePage() returns (a: nat)
      requires Core() && FreeCount() > 0
      modifies alloc, alloc.order, alloc.onList, alloc.count
      ensures alloc.Valid() && State() == old(State())
      ensures Live(alloc.t) == Live(old(alloc.t))[a := 0] && a !in Live(old(alloc.t))
      ensures a < alloc.count.Length
      ensures FreeCount() + 1 == old(FreeCount())
    {
      hide Inv, Accounts, FreePages, BuddyAllocator.Describes;
      BuddyAllocator.DescribesSizes(alloc.State(), alloc.t, alloc.arena);
      ghost var t0, m0 := alloc.t, State();
      ghost var s0 := alloc.State();
      var r, k := alloc.Alloc(BuddyAllocator.PAGE_SIZE);
      assert Pow2(0) == 1 && k == 0;
      if r.None? { NoListsNoFree(s0, t0, alloc.arena, k); }
      a := r.value;
      BuddyAllocator.DescribesSizes(alloc.State(), alloc.t, alloc.arena);
      CountsKept(t0, alloc.arena, m0, stacks, other, alloc.count[..]);
      FreePagesShrink(t0, alloc.t, alloc.arena, a, 0);
    }

    ghost function Heap(): set<object>
    {
      {this, alloc, alloc.order, alloc.onList, alloc.count}
    }

    /** An empty page directory. */
    method NewDir() returns (d: nat)
      requires Core() && FreeCount() > 0
      modifies this`dirs, alloc, alloc.order, alloc.onList, alloc.count
      ensures Core() && d !in old(dirs) && State() == AddDir(old(State()), d)
      ensures SameContents(old(State()), State())
      ensures FreeCount() + 1 == old(FreeCount())
    {
      hide Inv, Accounts, FreePages, SameContents, BuddyAllocator.Describes;
      ghost var m0 := State();
      d := TakePage();
      AccountsNew(Live(old(alloc.t)), m0, stacks, other, d);
      AddDirInv(m0, d);
      dirs := dirs[d := seq(DIRS, _ => None)];
      assert State() == AddDir(m0, d);
    }

    /** A cleared page table in slot i of directory d. */
    method NewTable(d: nat, i: nat) returns (t: nat)
      requires Core() && FreeCount() > 0
      requires d in dirs && i < DIRS && |dirs[d]| == DIRS && dirs[d][i] == None
      modifies this`dirs, this`tables, alloc, alloc.order, alloc.onList, alloc.count
      ensures Core() && t !in old(tables)
      ensures State() == AddTable(old(State()), d, i, t, seq(ENTRIES, _ => Absent))
      ensures SameContents(old(State()), State())
      ensures FreeCount() + 1 == old(FreeCount())
    {
      hide Inv, Accounts, FreePages, SameContents, BuddyAllocator.Describes;
      ghost var m0 := State();
      t := TakePage();
      AccountsNew(Live(old(alloc.t)), m0, stacks, other, t);
      var blank := seq(ENTRIES, _ => Absent);
      AddTableInv(m0, d, i, t, blank);
      AccountsTable(Live(old(alloc.t)), m0, stacks, other, d, i, t, blank);
      tables := tables[t := blank];
      dirs := dirs[d := dirs[d][i := Some(t)]];
      assert State() == AddTable(m0, d, i, t, blank);
    }

    /** Fork's inner loop: every user page of the parent's table i from entry lo on is
        write-protected and shared with the child. */
    method ShareTable(p: nat, c: nat, i: nat, pt: nat, ct: nat, lo: nat)
      requires Core() && p != c && lo <= ENTRIES
      requires Owns(dirs, p, i, pt) && Owns(dirs, c, i, ct) && EmptyFrom(State(), i, ct, lo)
      requires forall y: nat :: y < lo ==> !UserSlot(i, y)
      modifies this`tables, alloc.count
      ensures Core() && Shared(old(State()), State(), p, c, i, ct, ENTRIES)
      ensures KernelKept(old(tables), tables)
      ensures forall t :: t in old(tables) && t != pt && t != ct ==> t in tables && tables[t] == old(tables[t])
    {
      hide Inv, Accounts, Shared, Owns, EmptyFrom, KernelKept, BuddyAllocator.Describes;
      ghost var m0 := State();
      KernelKeptSame(tables, tables);
      SharedStart(m0, p, c, i, pt, ct, lo);
      TableFacts(m0, p, i, pt);
      var j := lo;
      while j < ENTRIES
        invariant lo <= j <= ENTRIES
        invariant Inv(State()) && alloc.Valid() && dirs == m0.dirs
        invariant Shared(m0, State(), p, c, i, ct, j)
        invariant KernelKept(m0.tables, tables) && tables.Keys == m0.tables.Keys
        invariant forall t :: t in m0.tables && t != pt && t != ct ==> t in tables && tables[t] == m0.tables[t]
      {
        ghost var m := State();
        TableFacts(m, p, i, pt);
        TableFacts(m, c, i, ct);
        if UserSlot(i, j) {
          ShareEntry(m0, p, c, i, pt, ct, j);
        } else {
          SharedSkip(m0, m, p, c, i, pt, ct, j);
          KernelKeptSame(m.tables, tables);
        }
        KernelKeptJoin(m0.tables, m.tables, tables);
        j := j + 1;
      }
      AccountsSame(Live(alloc.t), m0, State(), stacks, other, p, c, i, ct, ENTRIES);
    }

    /** One entry: clear the write bit, copy, count if present. */
    method ShareEntry(ghost m0: Mmu, p: nat, c: nat, i: nat, pt: nat, ct: nat, j: nat)
      requires alloc.Valid() && Inv(State()) && Shared(m0, State(), p, c, i, ct, j) && p != c
      requires Owns(dirs, p, i, pt) && Owns(dirs, c, i, ct) && UserSlot(i, j)
      requires pt in tables && j < |tables[pt]| && ct in tables && j < |tables[ct]|
      modifies this`tables, alloc.count
      ensures alloc.Valid() && Inv(State()) && Shared(m0, State(), p, c, i, ct, j + 1)
      ensures KernelKept(old(tables), tables) && tables.Keys == old(tables).Keys
      ensures forall t :: t in old(tables) && t != pt && t != ct ==> t in tables && tables[t] == old(tables[t])
    {
      hide Inv, Shared, Owns, KernelKept, BuddyAllocator.Describes;
      ghost var m := State();
      SharedEntryKinds(m0, m, p, c, i, pt, ct, j);
      var e := tables[pt][j];
      if e.User? {
        SharedStep(m0, m, p, c, i, pt, ct, j);
        e := User(e.frame, false);
      } else {
        SharedSkip(m0, m, p, c, i, pt, ct, j);
      }
      KernelKeptTwice(tables, pt, ct, j, e);
      tables := tables[pt := tables[pt][j := e]];
      tables := tables[ct := tables[ct][j := e]];
      if e != Absent {
        alloc.count[e.frame] := alloc.count[e.frame] + 1;
        assert State() == Share(Protect(m, pt, j), ct, j, e.frame);
      } else {
        assert m.tables[pt][j := e] == m.tables[pt] && m.tables[ct][j := e] == m.tables[ct];
        assert State() == m;
      }
    }

    /** A directory with the kernel's own mappings: low memory and a two-page kernel stack. */
    method NewSpace(low: seq<Entry>, stack: nat) returns (c: nat, t0: nat, t1: nat)
      requires Core() && FreeCount() >= 3
      requires |low| == FIRST_USER && forall j :: 0 <= j < |low| ==> !low[j].User?
      modifies this`dirs, this`tables, alloc, alloc.order, alloc.onList, alloc.count
      ensures Core() && Fresh(old(State()), State(), c, t0, t1)
      ensures LowOf(dirs, tables, c) == low && StackMapped(dirs, tables, c, stack)
      ensures FreeCount() + 3 == old(FreeCount())
      ensures c !in old(dirs)
    {
      hide Inv, Accounts, FreePages, SameContents, BuddyAllocator.Describes;
      ghost var m0 := State();
      c := NewDir();
      ghost var m1 := State();
      t0 := LowTable(low, c);
      ghost var m2 := State();
      t1 := StackTable(stack, c);
      FreshMade(m0, m1, m2, State(), c, t0, t1);
    }

    /** The first table, for low memory. */
    method LowTable(low: seq<Entry>, c: nat) returns (t: nat)
      requires Core() && FreeCount() > 0 && c in dirs && |dirs[c]| == DIRS && dirs[c][0] == None
      requires |low| == FIRST_USER && forall j :: 0 <= j < |low| ==> !low[j].User?
      modifies this`dirs, this`tables, alloc, alloc.order, alloc.onList, alloc.count
      ensures Core() && WithTable(old(State()), State(), c, 0, t) && FreeCount() + 1 == old(FreeCount())
      ensures t in tables && |tables[t]| == ENTRIES && tables[t][..FIRST_USER] == low
    {
      hide Inv, Accounts, FreePages, SameContents, OneTable, WithTable, BuddyAllocator.Describes;
      ghost var m0 := State();
      t := NewTable(c, 0);
      ghost var m := State();
      LowMap(low, c, t);
      TableMade(m0, m, State(), c, 0, t);
    }

    /** The last table, for the kernel stack. */
    method StackTable(stack: nat, c: nat) returns (t: nat)
      requires Core() && FreeCount() > 0 && c in dirs && |dirs[c]| == DIRS && dirs[c][LAST_DIR] == None
      modifies this`dirs, this`tables, alloc, alloc.order, alloc.onList, alloc.count
      ensures Core() && WithTable(old(State()), State(), c, LAST_DIR, t) && FreeCount() + 1 == old(FreeCount())
      ensures t in tables && |tables[t]| == ENTRIES
      ensures tables[t][STACK_LOW] == Kernel(stack) && tables[t][STACK_HIGH] == Kernel(stack + 1)
    {
      hide Inv, Accounts, FreePages, SameContents, OneTable, WithTable, BuddyAllocator.Describes;
      ghost var m0 := State();
      t := NewTable(c, LAST_DIR);
      ghost var m := State();
      StackMap(stack, c, t);
      TableMade(m0, m, State(), c, LAST_DIR, t);
    }

    /** Copies the entries of the first megabyte. */
    method LowMap(low: seq<Entry>, c: nat, t0: nat)
      requires Core() && Owns(dirs, c, 0, t0) && t0 in tables && |tables[t0]| == ENTRIES
      requires |low| == FIRST_USER && forall j :: 0 <= j < |low| ==> !low[j].User?
      modifies this`tables
      ensures Core() && SameContents(old(State()), State()) && OneTable(old(tables), tables, t0)
      ensures forall j :: FIRST_USER <= j < ENTRIES ==> tables[t0][j] == old(tables[t0][j])
      ensures tables[t0][..FIRST_USER] == low
    {
      hide Inv, Accounts, BuddyAllocator.Describes;
      ghost var m0 := State();
      var j := 0;
      while j < FIRST_USER
        invariant 0 <= j <= FIRST_USER
        invariant Inv(State()) && SameContents(m0, State()) && OneTable(m0.tables, tables, t0)
        invariant forall y :: FIRST_USER <= y < ENTRIES ==> tables[t0][y] == m0.tables[t0][y]
        invariant forall y :: 0 <= y < j ==> tables[t0][y] == low[y]
      {
        ghost var m := State();
        SetKernelInv(m, c, 0, t0, j, low[j]);
        tables := tables[t0 := tables[t0][j := low[j]]];
        assert State() == SetKernel(m, t0, j, low[j]);
        j := j + 1;
      }
      AccountsKeys(Live(alloc.t), m0, State(), stacks, other);
    }

    /** Maps the kernel stack's two pages below the end of the user half. */
    method StackMap(stack: nat, c: nat, t1: nat)
      requires Core() && Owns(dirs, c, LAST_DIR, t1) && t1 in tables && |tables[t1]| == ENTRIES
      modifies this`tables
      ensures Core() && SameContents(old(State()), State()) && OneTable(old(tables), tables, t1)
      ensures forall j :: 0 <= j < ENTRIES && UserSlot(LAST_DIR, j) ==> tables[t1][j] == old(tables[t1][j])
      ensures tables[t1][STACK_LOW] == Kernel(stack) && tables[t1][STACK_HIGH] == Kernel(stack + 1)
    {
      hide Inv, Accounts, BuddyAllocator.Describes;
      ghost var m0 := State();
      SetKernelInv(m0, c, LAST_DIR, t1, STACK_LOW, Kernel(stack));
      tables := tables[t1 := tables[t1][STACK_LOW := Kernel(stack)]];
      ghost var m1 := State();
      assert m1 == SetKernel(m0, t1, STACK_LOW, Kernel(stack));
      SetKernelInv(m1, c, LAST_DIR, t1, STACK_HIGH, Kernel(stack + 1));
      tables := tables[t1 := tables[t1][STACK_HIGH := Kernel(stack + 1)]];
      assert State() == SetKernel(m1, t1, STACK_HIGH, Kernel(stack + 1));
      AccountsKeys(Live(alloc.t), m0, State(), stacks, other);
    }

    /** clone_vm_process: a new directory whose user half shares every page of the parent's. */
    method Clone(p: nat, userspace: bool, stack: nat) returns (c: nat)
      requires Core() && p in dirs && |dirs[p]| == DIRS && dirs[p][0].Some? && dirs[p][LAST_DIR].Some?
      requires FreeCount() >= 3 + TablesIn(dirs[p], 1, LAST_DIR)
      modifies this`dirs, this`tables, alloc, alloc.order, alloc.onList, alloc.count
      ensures Core() && CloneOf(old(State()), State(), p, c, userspace)
      ensures StackMapped(dirs, tables, c, stack) && KernelKept(old(tables), tables)
      ensures c !in old(dirs)
      ensures FreeCount() + 3 + (if userspace then TablesIn(old(dirs[p]), 1, LAST_DIR) else 0) == old(FreeCount())
    {
      hide Inv, Accounts, FreePages, SameContents, Cloned, Shared, Fresh, CloneOf, EmptyFrom, Live, HomeStays, KernelKept, StackMapped, BuddyAllocator.Describes;
      ghost var m0 := State();
      var pt := dirs[p][0].value;
      TableFacts(m0, p, 0, pt);
      LowLegal(m0, p, pt);
      var t0, t1;
      c, t0, t1 := NewSpace(tables[pt][..FIRST_USER], stack);
      ghost var n := State();
      FreshFacts(m0, n, p, c, t0, t1);
      FreshHome(m0, n, c, t0, t1);
      if !userspace {
        NothingCloned(m0, n, p, c, t0, t1);
        return;
      }
      ShareTable(p, c, 0, pt, t0, FIRST_USER);
      SharedFacts(n, State(), p, c, 0, t0);
      SameDirsHome(n, State(), c);
      ClonedFirst(m0, n, State(), p, c, t0, t1);
      CloneTables(m0, n, p, c);
      ChildHome(m0, n, State(), p, c, stack);
      AllCloned(m0, State(), p, c);
    }

    /** clone_vm_process' outer loop. */
    method CloneTables(ghost m0: Mmu, ghost n: Mmu, p: nat, c: nat)
      requires Inv(m0) && p in m0.dirs && |m0.dirs[p]| == DIRS && m0.dirs[p][LAST_DIR].Some?
      requires Core() && Cloned(m0, State(), p, c, 1) && HomeStays(n, State(), c) && n.tables.Keys <= tables.Keys
      requires FreeCount() >= TablesIn(m0.dirs[p], 1, LAST_DIR)
      modifies this`dirs, this`tables, alloc, alloc.order, alloc.onList, alloc.count
      ensures Core() && Cloned(m0, State(), p, c, DIRS) && HomeStays(n, State(), c)
      ensures FreeCount() + TablesIn(m0.dirs[p], 1, LAST_DIR) == old(FreeCount())
    {
      hide Inv, Accounts, FreePages, Cloned, HomeStays, BuddyAllocator.Describes;
      var i := 1;
      while i <= LAST_DIR
        invariant 1 <= i <= DIRS
        invariant Core() && Cloned(m0, State(), p, c, i)
        invariant HomeStays(n, State(), c) && n.tables.Keys <= tables.Keys
        invariant FreeCount() + TablesIn(m0.dirs[p], 1, LAST_DIR) == old(FreeCount()) + TablesIn(m0.dirs[p], i, LAST_DIR)
      {
        ghost var m := State();
        CloneTable(m0, p, c, i);
        HomeStaysJoin(n, m, State(), c);
        i := i + 1;
      }
    }

    /** One turn of clone_vm_process' outer loop. */
    method CloneTable(ghost m0: Mmu, p: nat, c: nat, i: nat)
      requires Inv(m0) && p in m0.dirs && |m0.dirs[p]| == DIRS && m0.dirs[p][LAST_DIR].Some? && 1 <= i <= LAST_DIR
      requires Core() && Cloned(m0, State(), p, c, i)
      requires FreeCount() >= TablesIn(m0.dirs[p], i, LAST_DIR)
      modifies this`dirs, this`tables, alloc, alloc.order, alloc.onList, alloc.count
      ensures Core() && Cloned(m0, State(), p, c, i + 1)
      ensures HomeStays(old(State()), State(), c) && old(tables).Keys <= tables.Keys
      ensures FreeCount() + TablesIn(m0.dirs[p], i, LAST_DIR) == old(FreeCount()) + TablesIn(m0.dirs[p], i + 1, LAST_DIR)
    {
      hide Inv, Accounts, FreePages, SameContents, Cloned, Shared, KernelKept, HomeStays, BuddyAllocator.Describes;
      ghost var m := State();
      ClonedFacts(m0, m, p, c, i);
      KernelKeptSame(tables, tables);
      if dirs[p][i].None? {
        ClonedSkip(m0, m, p, c, i);
        SameDirsHome(m, m, c);
        return;
      }
      var pt := dirs[p][i].value;
      var ct;
      if i != LAST_DIR {
        ct := NewTable(c, i);
        ClonedTable(m0, m, p, c, i, ct, seq(ENTRIES, _ => Absent));
        AddTableHome(m, c, i, ct, seq(ENTRIES, _ => Absent));
      } else {
        ct := dirs[c][LAST_DIR].value;
        SameDirsHome(m, m, c);
        SameContentsSelf(m);
        LastIsNew(m0, m, p, c);
      }
      ghost var n := State();
      ShareTable(p, c, i, pt, ct, 0);
      ghost var q := State();
      SharedFacts(n, q, p, c, i, ct);
      SameDirsHome(n, q, c);
      HomeStaysJoin(m, n, q, c);
      BeyondBoth(m0, q, p, c, i);
      ClonedShared(m0, m, n, q, p, c, i, ct);
    }

    ghost predicate Valid()
      reads this, alloc, alloc.order, alloc.onList, alloc.count
    {
      Core() && Complete(dirs, stacks) && Homes(dirs, tables, stacks)
    }

    /** A kernel stack: the smallest block that holds two pages. */
    method TakeStack() returns (r: Option<nat>)
      requires Core()
      modifies this`other, alloc, alloc.order, alloc.onList, alloc.count
      ensures r.None? ==> Core() && State() == old(State()) && alloc.t == old(alloc.t) && other == old(other)
      ensures r.Some? ==> Core() && State() == old(State())
      ensures r.Some? ==> r.value !in old(other) && other == old(other)[r.value := STACK_ORDER]
      ensures r.Some? ==> Live(alloc.t) == Live(old(alloc.t))[r.value := STACK_ORDER]
      ensures r.Some? ==> FreeCount() + 2 == old(FreeCount())
      ensures r.None? <==> forall i :: STACK_ORDER <= i <= alloc.arena.top ==> old(alloc.pageList)[i] == []
    {
      hide Inv, Accounts, FreePages, BuddyAllocator.Describes;
      BuddyAllocator.DescribesSizes(alloc.State(), alloc.t, alloc.arena);
      ghost var t0, m0 := alloc.t, State();
      var b, k := alloc.Alloc(STACK_SIZE);
      assert Pow2(0) == 1 && Pow2(1) == 2 && k == STACK_ORDER;
      BuddyAllocator.DescribesSizes(alloc.State(), alloc.t, alloc.arena);
      CountsKept(t0, alloc.arena, m0, stacks, other, alloc.count[..]);
      if b.None? {
        return None;
      }
      FreePagesShrink(t0, alloc.t, alloc.arena, b.value, k);
      AccountsHeld(Live(t0), m0, stacks, other, b.value, STACK_ORDER);
      other := other[b.value := STACK_ORDER];
      r := Some(b.value);
    }

    /** _fork's memory: the kernel stack, then the address space; fails before touching anything
        when no block is left for the stack. */
    method Fork(p: nat, userspace: bool) returns (r: Option<nat>)
      requires Valid() && p in dirs
      requires FreeCount() >= 5 + TablesIn(dirs[p], 1, LAST_DIR)
      modifies Heap()
      ensures Valid() && other == old(other)
      ensures r.None? <==> forall i :: STACK_ORDER <= i <= alloc.arena.top ==> old(alloc.pageList)[i] == []
      ensures r.None? ==> State() == old(State()) && alloc.t == old(alloc.t) && stacks == old(stacks)
      ensures r.Some? ==> CloneOf(old(State()), State(), p, r.value, userspace)
      ensures r.Some? ==> r.value !in old(dirs) && stacks.Keys == old(stacks).Keys + {r.value}
      ensures r.Some? ==> stacks - {r.value} == old(stacks)
      ensures r.Some? ==> FreeCount() + 5 + (if userspace then TablesIn(old(dirs[p]), 1, LAST_DIR) else 0) == old(FreeCount())
    {
      hide Inv, Accounts, FreePages, CloneOf, Complete, Live, Homes, KernelKept, StackMapped, BuddyAllocator.Describes;
      CompleteFacts(dirs, stacks, p);
      var s := TakeStack();
      if s.None? {
        return None;
      }
      ghost var m0 := State();
      var c := Clone(p, userspace, s.value);
      CloneFacts(m0, State(), stacks, p, c, s.value, userspace);
      ForkHomes(m0, State(), stacks, p, c, s.value, userspace);
      StackMoves(Live(alloc.t), State(), stacks, old(other), c, s.value);
      stacks := stacks[c := s.value];
      other := old(other);
      r := Some(c);
    }

    /** What a process sees at one of its pages. */
    method Read(d: nat, i: nat, j: nat) returns (r: Option<Page>)
      requires Valid()
      ensures r == Content(State(), d, i, j)
    {
      hide Accounts, Counted, Sole, BuddyAllocator.Describes;
      r := None;
      if d in dirs && i < DIRS && dirs[d][i].Some? && j < ENTRIES {
        var t := dirs[d][i].value;
        TableFacts(State(), d, i, t);
        if tables[t][j].User? {
          UserContent(State(), d, i, t, j);
          r := Some(frames[tables[t][j].frame]);
        }
      }
    }

    /** The write-fault branch: a frame with one reference is taken over, a shared one is copied. */
    method CopyOnWrite(d: nat, i: nat, t: nat, j: nat)
      requires Valid() && Owns(dirs, d, i, t) && t in tables && j < |tables[t]| && tables[t][j].User?
      requires tables[t][j].frame < alloc.count.Length && (alloc.count[tables[t][j].frame] > 1 ==> FreeCount() > 0)
      modifies Heap()
      ensures Valid() && SameContents(old(State()), State())
      ensures dirs == old(dirs) && stacks == old(stacks) && other == old(other)
      ensures OneTable(old(tables), tables, t) && tables[t][j].User? && tables[t][j].writable
      ensures FreeCount() + (if old(alloc.count[tables[t][j].frame]) > 1 then 1 else 0) == old(FreeCount())
    {
      hide Inv, Accounts, FreePages, SameContents, Owns, Complete, Homes, KernelKept, BuddyAllocator.Describes;
      ghost var m := State();
      if alloc.count[tables[t][j].frame] > 1 {
        CopyFrame(d, i, t, j);
      } else {
        TakeOverInv(m, d, i, t, j);
        TakeOverContents(m, d, i, t, j);
        KernelKeptSet(tables, t, j, User(tables[t][j].frame, true));
        tables := tables[t := tables[t][j := User(tables[t][j].frame, true)]];
        assert State() == TakeOver(m, t, j);
        AccountsKeys(Live(alloc.t), m, State(), stacks, other);
      }
      SameDirsHomes(m, State(), stacks);
    }

    /** The process gets a frame of its own with the same contents. */
    method CopyFrame(d: nat, i: nat, t: nat, j: nat)
      requires Core() && Owns(dirs, d, i, t) && t in tables && j < |tables[t]| && tables[t][j].User?
      requires tables[t][j].frame < alloc.count.Length && alloc.count[tables[t][j].frame] > 1 && FreeCount() > 0
      modifies this`tables, this`frames, alloc, alloc.order, alloc.onList, alloc.count
      ensures Core() && SameContents(old(State()), State()) && KernelKept(old(tables), tables)
      ensures OneTable(old(tables), tables, t) && tables[t][j].User? && tables[t][j].writable
      ensures FreeCount() + 1 == old(FreeCount())
    {
      hide Inv, Accounts, FreePages, SameContents, Owns, Live, KernelKept, BuddyAllocator.Describes;
      ghost var m := State();
      var f := tables[t][j].frame;
      var a := TakePage();
      CopyStep(Live(old(alloc.t)), m, stacks, other, d, i, t, j, a);
      frames := frames[a := frames[f]];
      tables := tables[t := tables[t][j := User(a, true)]];
      alloc.count[f] := alloc.count[f] - 1;
      alloc.count[a] := alloc.count[a] + 1;
      assert State() == Copied(m, t, j, a);
    }

    /** A store by a process to one of its mapped pages, after the fault it may cause. */
    method Write(d: nat, i: nat, j: nat, page: Page)
      requires Valid() && Content(State(), d, i, j).Some?
      requires NeedsCopy(State(), d, i, j) ==> FreeCount() > 0
      modifies Heap()
      ensures Valid() && dirs == old(dirs) && stacks == old(stacks) && other == old(other)
      ensures SameElsewhere(old(State()), State(), d, i, j)
      ensures Content(State(), d, i, j) == Some(page)
      ensures FreeCount() + (if NeedsCopy(old(State()), d, i, j) then 1 else 0) == old(FreeCount())
    {
      hide Inv, Accounts, FreePages, SameContents, SameElsewhere, Owns, Complete, Homes, BuddyAllocator.Describes;
      ghost var m0 := State();
      var t := dirs[d][i].value;
      MappedFacts(m0, d, i, j);
      if !tables[t][j].writable {
        CopyOnWrite(d, i, t, j);
      } else {
        SameContentsSelf(m0);
      }
      ghost var m := State();
      StoreInv(m, d, i, t, j, page);
      StoreFacts(m, d, i, t, j);
      frames := frames[tables[t][j].frame := page];
      assert State() == Store(m, tables[t][j].frame, page);
      AccountsKeys(Live(alloc.t), m, State(), stacks, other);
      ElsewhereAfterSame(m0, m, State(), d, i, j);
    }

    /** The demand branch: the page is not present, a fresh frame is mapped and counted. */
    method Demand(d: nat, i: nat, j: nat, page: Page)
      requires Valid() && d in dirs && i < DIRS && j < ENTRIES && UserSlot(i, j)
      requires Content(State(), d, i, j).None? && FreeCount() >= if dirs[d][i].None? then 2 else 1
      modifies Heap()
      ensures Valid() && dirs.Keys == old(dirs).Keys && stacks == old(stacks) && other == old(other)
      ensures SameElsewhere(old(State()), State(), d, i, j)
      ensures Content(State(), d, i, j) == Some(page)
      ensures FreeCount() + (if old(dirs[d][i]).None? then 2 else 1) == old(FreeCount())
    {
      hide Inv, Accounts, FreePages, SameContents, SameElsewhere, Complete, Homes, KernelKept, BuddyAllocator.Describes;
      ghost var m0 := State();
      CompleteFacts(dirs, stacks, d);
      var a := HoldPage();
      var t := TableOf(d, i);
      CompleteTable(m0.dirs, stacks, d, i, t);
      ghost var m := State();
      AbsentThere(m0, m, d, i, t, j);
      MapPage(d, i, t, j, a, page, old(other));
      KernelKeptJoin(m0.tables, m.tables, tables);
      TableHomes(m0, State(), stacks, d, i, t);
      ElsewhereAfterSame(m0, m, State(), d, i, j);
    }

    /** A page whose purpose is still to be recorded. */
    method HoldPage() returns (a: nat)
      requires Core() && FreeCount() > 0
      modifies this`other, alloc, alloc.order, alloc.onList, alloc.count
      ensures Core() && State() == old(State())
      ensures a !in old(other) && other == old(other)[a := 0] && a < alloc.count.Length
      ensures FreeCount() + 1 == old(FreeCount())
    {
      hide Inv, Accounts, FreePages, BuddyAllocator.Describes;
      ghost var m0 := State();
      a := TakePage();
      AccountsHeld(Live(old(alloc.t)), m0, stacks, other, a, 0);
      other := other[a := 0];
    }

    /** The page table of directory entry i, made on first use. */
    method TableOf(d: nat, i: nat) returns (t: nat)
      requires Core() && d in dirs && i < DIRS && |dirs[d]| == DIRS && (dirs[d][i].None? ==> FreeCount() > 0)
      modifies this`dirs, this`tables, alloc, alloc.order, alloc.onList, alloc.count
      ensures Core() && dirs == old(dirs)[d := old(dirs[d])[i := Some(t)]]
      ensures old(dirs[d][i]).Some? ==> t == old(dirs[d][i]).value
      ensures KernelKept(old(tables), tables) && old(tables).Keys <= tables.Keys
      ensures FreeCount() + (if old(dirs[d][i]).None? then 1 else 0) == old(FreeCount())
      ensures SameContents(old(State()), State())
    {
      hide Inv, Accounts, FreePages, SameContents, KernelKept, BuddyAllocator.Describes;
      if dirs[d][i].None? {
        t := NewTable(d, i);
        KernelKeptSame(old(tables), tables);
      } else {
        KernelKeptSame(tables, tables);
        t := dirs[d][i].value;
        SameContentsSelf(State());
        assert dirs[d] == dirs[d][i := Some(t)];
      }
    }

    /** The held page becomes the frame of entry j. */
    method MapPage(d: nat, i: nat, t: nat, j: nat, a: nat, page: Page, ghost rest: map<nat, nat>)
      requires Core() && Owns(dirs, d, i, t) && t in tables && j < |tables[t]| && UserSlot(i, j)
      requires tables[t][j].Absent? && a < alloc.count.Length && a !in rest && other == rest[a := 0]
      modifies this`tables, this`frames, this`other, alloc.count
      ensures Core() && other == rest && KernelKept(old(tables), tables)
      ensures SameElsewhere(old(State()), State(), d, i, j)
      ensures Content(State(), d, i, j) == Some(page)
    {
      hide Inv, Accounts, FreePages, SameElsewhere, Owns, KernelKept, BuddyAllocator.Describes;
      ghost var m := State();
      KernelKeptSet(tables, t, j, User(a, true));
      HeldBecomesFrame(Live(alloc.t), m, stacks, rest, d, i, t, j, a, page);
      FillContents(m, d, i, t, j, a, page);
      tables := tables[t := tables[t][j := User(a, true)]];
      frames := frames[a := page];
      alloc.count[a] := alloc.count[a] + 1;
      other := rest;
      assert State() == Fill(m, t, j, a, page);
    }

    /** Drops one reference; the frame goes back to the allocator with its last one. */
    method DropEntry(d: nat, i: nat, t: nat, j: nat)
      requires Core() && Owns(dirs, d, i, t) && t in tables && j < |tables[t]| && tables[t][j].User?
      requires tables[t][j].frame < alloc.count.Length && alloc.count[tables[t][j].frame] > 0
      modifies this`tables, this`frames, alloc, alloc.order, alloc.onList, alloc.count
      ensures Core() && State() == Drop(old(State()), t, j)
    {
      hide Inv, Accounts, Owns, BuddyAllocator.Describes;
      ghost var m := State();
      ghost var live := Live(alloc.t);
      var f := tables[t][j].frame;
      DropInv(m, d, i, t, j);
      AccountsDrop(live, m, stacks, other, t, j);
      if alloc.count[f] == 1 {
        alloc.Free(f);
        alloc.count[f] := 0;
        frames := frames - {f};
      } else {
        alloc.count[f] := alloc.count[f] - 1;
      }
      tables := tables[t := tables[t][j := Absent]];
      assert State() == Drop(m, t, j);
    }

    /** Drops every user page of table i from entry lo on. */
    method FreeTable(d: nat, i: nat, t: nat, lo: nat)
      requires Core() && Owns(dirs, d, i, t) && lo <= ENTRIES
      requires forall y: nat :: y < lo ==> !UserSlot(i, y)
      modifies this`tables, this`frames, alloc, alloc.order, alloc.onList, alloc.count
      ensures Core() && Emptied(old(State()), State(), d, i, t, ENTRIES)
      ensures KernelKept(old(tables), tables) && tables.Keys == old(tables).Keys
    {
      hide Inv, Accounts, Emptied, Owns, KernelKept, BuddyAllocator.Describes;
      KernelKeptSame(tables, tables);
      ghost var m0 := State();
      EmptiedStart(m0, d, i, t, lo);
      var j := lo;
      while j < ENTRIES
        invariant lo <= j <= ENTRIES && Core() && dirs == m0.dirs
        invariant Emptied(m0, State(), d, i, t, j)
        invariant KernelKept(m0.tables, tables) && tables.Keys == m0.tables.Keys
      {
        ghost var m := State();
        TableFacts(m, d, i, t);
        if UserSlot(i, j) && tables[t][j] != Absent {
          UserThere(m, d, i, t, j);
          EmptiedStep(m0, m, d, i, t, j);
          KernelKeptSet(tables, t, j, Absent);
          DropEntry(d, i, t, j);
          KernelKeptJoin(m0.tables, m.tables, tables);
        } else {
          EmptiedSkip(m0, m, d, i, t, j);
        }
        j := j + 1;
      }
    }

    /** Hands an emptied table back and clears its directory slot. */
    method ReleaseTable(d: nat, i: nat, t: nat)
      requires Core() && Owns(dirs, d, i, t) && t in tables && Blank(tables[t])
      modifies this`dirs, this`tables, alloc, alloc.order, alloc.onList
      ensures Core() && State() == RemoveTable(old(State()), d, i, t)
      ensures SameContents(old(State()), State())
    {
      hide Inv, Accounts, Blank, SameContents, BuddyAllocator.Describes;
      ghost var m := State();
      RemoveTableInv(m, d, i, t);
      AccountsRemoveTable(Live(alloc.t), m, stacks, other, d, i, t);
      alloc.Free(t);
      dirs := dirs[d := dirs[d][i := None]];
      tables := tables - {t};
      assert State() == RemoveTable(m, d, i, t);
    }

    /** Hands the directory itself back. */
    method ReleaseDir(d: nat)
      requires Core() && EmptyDir(State(), d)
      modifies this`dirs, alloc, alloc.order, alloc.onList
      ensures Core() && State() == RemoveDir(old(State()), d)
      ensures SameContents(old(State()), State())
    {
      hide Inv, Accounts, SameContents, BuddyAllocator.Describes;
      ghost var m := State();
      RemoveDirInv(m, d);
      AccountsRemoveDir(Live(alloc.t), m, stacks, other, d);
      alloc.Free(d);
      dirs := dirs - {d};
      assert State() == RemoveDir(m, d);
    }

    /** Hands a kernel stack back. */
    method ReleaseStack(d: nat)
      requires Core() && d in stacks
      modifies this`stacks, alloc, alloc.order, alloc.onList
      ensures Core() && stacks == old(stacks) - {d} && State() == old(State())
    {
      hide Inv, Accounts, BuddyAllocator.Describes;
      AccountsRemoveStack(Live(alloc.t), State(), stacks, other, d);
      alloc.Free(stacks[d]);
      stacks := stacks - {d};
    }

    /** free_vm_process_user_space: what exec and exit do to the user half. */
    method FreeUserSpace(d: nat)
      requires Valid() && d in dirs
      modifies this`dirs, this`tables, this`frames, alloc, alloc.order, alloc.onList, alloc.count
      ensures Valid() && Released(old(State()), State(), d, DIRS)
    {
      hide Inv, Accounts, Emptied, Released, KernelKept, Homes, BuddyAllocator.Describes;
      ghost var m0 := State();
      var t := dirs[d][0].value;
      FreeTable(d, 0, t, FIRST_USER);
      ReleasedFirst(m0, State(), d, t);
      var i := 1;
      while i <= LAST_DIR
        invariant 1 <= i <= DIRS && Core() && Released(m0, State(), d, i)
        invariant KernelKept(m0.tables, tables)
      {
        ReleasedFacts(m0, State(), d, i);
        if dirs[d][i].Some? {
          ghost var was := tables;
          FreeSlot(m0, d, i, dirs[d][i].value);
          KernelKeptJoin(m0.tables, was, tables);
        } else {
          ReleasedSkip(m0, State(), d, i);
        }
        i := i + 1;
      }
      ReleasedKeeps(m0, State(), d);
      ReleasedHomes(m0, State(), stacks, d);
    }

    /** One turn of the outer loop; the last table stays, it maps the kernel stack. */
    method FreeSlot(ghost m0: Mmu, d: nat, i: nat, t: nat)
      requires Core() && 0 < i <= LAST_DIR && Released(m0, State(), d, i) && Owns(dirs, d, i, t)
      modifies this`dirs, this`tables, this`frames, alloc, alloc.order, alloc.onList, alloc.count
      ensures Core() && Released(m0, State(), d, i + 1)
      ensures KernelKept(old(tables), tables) && tables.Keys <= old(tables).Keys
    {
      hide Inv, Accounts, Emptied, Released, Blank, SameContents, KernelKept, BuddyAllocator.Describes;
      ghost var m := State();
      FreeTable(d, i, t, 0);
      ghost var q := State();
      EmptiedFacts(m, q, d, i, t);
      if i != LAST_DIR {
        ReleaseTable(d, i, t);
        KernelKeptSame(q.tables, tables);
        KernelKeptJoin(m.tables, q.tables, tables);
        ReleasedNext(m0, m, q, State(), d, i, t);
      } else {
        ReleasedLast(m0, m, q, d, t);
      }
    }

    /** The remaining two tables and the directory. */
    method ReleaseSpace(ghost m0: Mmu, d: nat)
      requires Inv(m0) && Core() && Released(m0, State(), d, DIRS)
      requires d in dirs && |dirs[d]| == DIRS && dirs[d][0].Some? && dirs[d][LAST_DIR].Some?
      modifies this`dirs, this`tables, alloc, alloc.order, alloc.onList
      ensures Core() && dirs == m0.dirs - {d} && OthersSame(m0, State(), d)
      ensures forall t :: t in tables ==> t in m0.tables && tables[t] == m0.tables[t]
    {
      hide Inv, Accounts, Released, Blank, SameContents, BuddyAllocator.Describes;
      ghost var m1 := State();
      ReleasedTables(m0, m1, d);
      ReleaseTable(d, 0, dirs[d][0].value);
      ghost var m2 := State();
      LastTable(m1, m2, d);
      ReleaseTable(d, LAST_DIR, dirs[d][LAST_DIR].value);
      ghost var m3 := State();
      ReleaseDir(d);
      ReleasedOthers(m0, m1, m2, m3, State(), d);
      OtherTables(m0, m1, State(), d);
    }

    /** free_vm_process and the release of the kernel stack. */
    method Exit(d: nat, userspace: bool)
      requires Valid() && d in dirs
      requires !userspace ==> Released(State(), State(), d, DIRS)
      modifies Heap()
      ensures Valid() && other == old(other)
      ensures dirs == old(dirs) - {d} && stacks == old(stacks) - {d}
      ensures OthersSame(old(State()), State(), d)
      ensures forall t :: t in tables ==> t in old(tables) && tables[t] == old(tables)[t]
    {
      hide Inv, Accounts, Released, OthersSame, Homes, BuddyAllocator.Describes;
      ghost var m0 := State();
      if userspace {
        FreeUserSpace(d);
      }
      ReleaseSpace(m0, d);
      ReleaseStack(d);
      ExitHomes(m0, State(), old(stacks), d);
    }

    /** A fork followed by the child's exit leaves the allocator as it was: nothing leaks, and the
        free blocks are the same blocks. */
    method ForkThenExit(p: nat) returns (c: Option<nat>, ghost between: Mmu)
      requires Valid() && p in dirs
      requires FreeCount() >= 5 + TablesIn(dirs[p], 1, LAST_DIR)
      modifies Heap()
      ensures Valid() && alloc.t == old(alloc.t)
      ensures dirs == old(dirs) && frames.Keys == old(frames).Keys && stacks == old(stacks)
      ensures SameContents(old(State()), State())
      ensures c.Some? ==> CloneOf(old(State()), between, p, c.value, true)
      ensures c.None? <==> forall i :: STACK_ORDER <= i <= alloc.arena.top ==> old(alloc.pageList)[i] == []
    {
      hide Inv, Accounts, FreePages, CloneOf, OthersSame, SameContents, BuddyAllocator.Describes;
      ghost var m0 := State();
      ghost var t0 := alloc.t;
      BuddyAllocator.DescribesSizes(alloc.State(), alloc.t, alloc.arena);
      c := Fork(p, true);
      between := State();
      if c.Some? {
        Exit(c.value, true);
        ghost var m2 := State();
        BuddyAllocator.DescribesSizes(alloc.State(), alloc.t, alloc.arena);
        NothingLeaks(t0, alloc.t, alloc.arena, m0, between, m2, stacks, other, p, c.value);
      } else {
        SameContentsSelf(m0);
      }
    }
  }

  /** From any state, through any clone of p, to any state that the clone's release may lead to: the blocks
      of the allocator, free ones included, are the ones there were, and so are the pages in use. */
  lemma NothingLeaks(t0: Tiling, t2: Tiling, a: Arena, m0: Mmu, m1: Mmu, m2: Mmu,
                     stacks: map<nat, nat>, other: map<nat, nat>, p: nat, c: nat)
    requires Good(t0, a) && Good(t2, a) && Inv(m0) && Inv(m2)
    requires Accounts(Live(t0), m0, stacks, other) && Accounts(Live(t2), m2, stacks, other)
    requires CloneOf(m0, m1, p, c, true)
    requires m2.dirs == m1.dirs - {c} && OthersSame(m1, m2, c)
    requires forall t :: t in m2.tables ==> t in m1.tables && m2.tables[t] == m1.tables[t]
    ensures t2 == t0
    ensures m2.dirs == m0.dirs && m2.tables.Keys == m0.tables.Keys && m2.frames.Keys == m0.frames.Keys
    ensures SameContents(m0, m2)
  {
    hide Good, Inv, Accounts, CloneOf, OthersSame, SameContents;
    BackAgain(m0, m1, m2, p, c);
    SameBlocks(Live(t0), Live(t2), m0, m2, stacks, other);
    FreeSetDetermined(t0, t2, a);
  }

  lemma SameBlocks(live: map<nat, nat>, later: map<nat, nat>, m: Mmu, n: Mmu, stacks: map<nat, nat>, other: map<nat, nat>)
    requires Accounts(live, m, stacks, other) && Accounts(later, n, stacks, other)
    requires n.dirs.Keys == m.dirs.Keys && n.tables.Keys == m.tables.Keys && n.frames.Keys == m.frames.Keys
    ensures later == live
  {
    assert PagesUsed(n) == PagesUsed(m);
  }

  lemma BackAgain(m0: Mmu, m1: Mmu, m2: Mmu, p: nat, c: nat)
    requires Inv(m0) && Inv(m2) && CloneOf(m0, m1, p, c, true) && OthersSame(m1, m2, c)
    requires m2.dirs == m1.dirs - {c}
    requires forall t :: t in m2.tables ==> t in m1.tables && m2.tables[t] == m1.tables[t]
    ensures m2.dirs == m0.dirs && m2.tables.Keys == m0.tables.Keys && m2.frames.Keys == m0.frames.Keys
    ensures SameContents(m0, m2)
  {
    assert m2.dirs == m0.dirs;
    SameTables(m0, m2);
    SameFrames(m0, m2);
    forall d: nat, k: nat, y: nat
      ensures Content(m2, d, k, y) == Content(m0, d, k, y)
    {
      if d != c { assert Content(m1, d, k, y) == Content(m0, d, k, y); }
    }
  }

  lemma SameTables(m: Mmu, n: Mmu)
    requires Owned(m) && Owned(n) && n.dirs == m.dirs
    ensures n.tables.Keys == m.tables.Keys
  {
    forall t: nat
      ensures t in n.tables <==> t in m.tables
    {
      if t in m.tables { var d: nat, k: nat :| Owns(m.dirs, d, k, t); }
      if t in n.tables { var d: nat, k: nat :| Owns(n.dirs, d, k, t); }
    }
  }

  lemma SameFrames(m: Mmu, n: Mmu)
    requires Inv(m) && Inv(n) && n.tables.Keys == m.tables.Keys
    requires forall t :: t in m.tables ==> KeepsFrames(m.tables, n.tables, t)
    ensures n.frames.Keys == m.frames.Keys
  {
    forall f: nat
      ensures f in n.frames <==> f in m.frames
    {
      if f in m.frames { var t, j := NamedBy(m, f); assert Names(n.tables, t, j, f); }
      if f in n.frames { var t, j := NamedBy(n, f); assert Names(m.tables, t, j, f); }
    }
  }

  lemma NamedBy(m: Mmu, f: nat) returns (t: nat, j: nat)
    requires Inv(m) && f in m.frames
    ensures Names(m.tables, t, j, f)
  {
    var r := Refs(m.tables, f);
    assert |r| > 0;
    var x :| x in r;
    t, j := x.0, x.1;
  }

  /** Every process but d reads what it read before. */
  ghost predicate OthersSame(m0: Mmu, m: Mmu, d: nat) {
    forall e: nat, k: nat, y: nat :: e != d ==> Content(m, e, k, y) == Content(m0, e, k, y)
  }

  lemma ReleasedFacts(m0: Mmu, m: Mmu, d: nat, i: nat)
    requires Released(m0, m, d, i) && i < DIRS
    ensures d in m.dirs && |m.dirs[d]| == DIRS
  {
  }

  lemma ReleasedKeeps(m0: Mmu, m: Mmu, d: nat)
    requires Released(m0, m, d, DIRS)
    ensures m.dirs.Keys == m0.dirs.Keys
    ensures forall e :: e in m0.dirs && e != d ==> m.dirs[e] == m0.dirs[e]
    ensures |m.dirs[d]| == DIRS && m.dirs[d][0] == m0.dirs[d][0] && m.dirs[d][LAST_DIR] == m0.dirs[d][LAST_DIR]
  {
    forall e | e in m0.dirs && e != d
      ensures e in m.dirs && m.dirs[e] == m0.dirs[e]
    {
      assert e in m0.dirs - {d} && (m0.dirs - {d})[e] == m0.dirs[e];
      assert e in m.dirs - {d} && (m.dirs - {d})[e] == m.dirs[e];
    }
    forall e | e in m.dirs && e != d
      ensures e in m0.dirs
    {
      assert e in m.dirs - {d};
      assert e in m0.dirs - {d};
    }
  }

  lemma EmptiedFacts(m: Mmu, q: Mmu, d: nat, i: nat, t: nat)
    requires Inv(q) && Owns(m.dirs, d, i, t) && Emptied(m, q, d, i, t, ENTRIES)
    ensures q.dirs == m.dirs && t in q.tables && Blank(q.tables[t])
  {
    EmptiedContents(q, d, i, t);
  }

  lemma ReleasedTables(m0: Mmu, m: Mmu, d: nat)
    requires Inv(m) && Released(m0, m, d, DIRS) && m.dirs[d][0].Some? && m.dirs[d][LAST_DIR].Some?
    ensures Owns(m.dirs, d, 0, m.dirs[d][0].value)
    ensures m.dirs[d][0].value in m.tables && Blank(m.tables[m.dirs[d][0].value])
    ensures Owns(m.dirs, d, LAST_DIR, m.dirs[d][LAST_DIR].value)
    ensures m.dirs[d][LAST_DIR].value in m.tables && Blank(m.tables[m.dirs[d][LAST_DIR].value])
    ensures m.dirs[d][LAST_DIR].value != m.dirs[d][0].value
    ensures forall k: nat :: 0 < k < LAST_DIR ==> m.dirs[d][k] == None
  {
    hide Content, Counted, Sole, FramesOk, SlotsOk;
    UnreadableIsBlank(m, d, 0, m.dirs[d][0].value);
    UnreadableIsBlank(m, d, LAST_DIR, m.dirs[d][LAST_DIR].value);
  }

  lemma LastTable(m1: Mmu, m2: Mmu, d: nat)
    requires d in m1.dirs && |m1.dirs[d]| == DIRS && m1.dirs[d][0].Some? && m1.dirs[d][LAST_DIR].Some?
    requires m2 == RemoveTable(m1, d, 0, m1.dirs[d][0].value)
    requires m1.dirs[d][LAST_DIR].value in m1.tables && m1.dirs[d][LAST_DIR].value != m1.dirs[d][0].value
    ensures Owns(m2.dirs, d, LAST_DIR, m1.dirs[d][LAST_DIR].value)
    ensures m1.dirs[d][LAST_DIR].value in m2.tables
    ensures m2.tables[m1.dirs[d][LAST_DIR].value] == m1.tables[m1.dirs[d][LAST_DIR].value]
  {
  }

  /** Once the directory is gone no table of its process is left, so those left are untouched. */
  lemma OtherTables(m0: Mmu, m1: Mmu, m: Mmu, d: nat)
    requires Inv(m0) && Inv(m) && Released(m0, m1, d, DIRS) && m.dirs == m0.dirs - {d}
    requires forall t :: t in m.tables ==> t in m1.tables && m.tables[t] == m1.tables[t]
    ensures forall t :: t in m.tables ==> t in m0.tables && m.tables[t] == m0.tables[t]
  {
    forall t | t in m.tables
      ensures t in m0.tables && m.tables[t] == m0.tables[t]
    {
      var e: nat, k: nat :| Owns(m.dirs, e, k, t);
      assert Owns(m0.dirs, e, k, t);
    }
  }

  lemma ReleasedOthers(m0: Mmu, m1: Mmu, m2: Mmu, m3: Mmu, m4: Mmu, d: nat)
    requires Released(m0, m1, d, DIRS) && SameContents(m1, m2) && SameContents(m2, m3) && SameContents(m3, m4)
    requires m2.dirs - {d} == m1.dirs - {d} && m3.dirs - {d} == m2.dirs - {d} && m4.dirs == m3.dirs - {d}
    ensures m4.dirs == m0.dirs - {d} && OthersSame(m0, m4, d)
  {
    hide Content;
  }

  lemma EmptiedStart(m: Mmu, d: nat, i: nat, t: nat, lo: nat)
    requires Inv(m) && Owns(m.dirs, d, i, t)
    requires forall y: nat :: y < lo ==> !UserSlot(i, y)
    ensures Emptied(m, m, d, i, t, lo)
  {
  }

  lemma UserThere(m: Mmu, d: nat, i: nat, t: nat, j: nat)
    requires Inv(m) && Owns(m.dirs, d, i, t) && t in m.tables && j < |m.tables[t]|
    requires UserSlot(i, j) && m.tables[t][j] != Absent
    ensures m.tables[t][j].User?
  {
  }

  lemma EmptiedSkip(m0: Mmu, m: Mmu, d: nat, i: nat, t: nat, j: nat)
    requires Inv(m) && Owns(m.dirs, d, i, t) && t in m.tables && j < |m.tables[t]|
    requires Emptied(m0, m, d, i, t, j) && !(UserSlot(i, j) && m.tables[t][j] != Absent)
    ensures Emptied(m0, m, d, i, t, j + 1)
  {
  }

  lemma AccountsDrop(live: map<nat, nat>, m: Mmu, stacks: map<nat, nat>, other: map<nat, nat>, t: nat, j: nat)
    requires Accounts(live, m, stacks, other)
    requires t in m.tables && j < |m.tables[t]| && m.tables[t][j].User?
    requires m.tables[t][j].frame < |m.count| && m.count[m.tables[t][j].frame] > 0 && m.tables[t][j].frame in m.frames
    ensures m.tables[t][j].frame in live
    ensures Accounts(if m.count[m.tables[t][j].frame] == 1 then live - {m.tables[t][j].frame} else live,
                     Drop(m, t, j), stacks, other)
  {
    hide Booked;
    var f, n := m.tables[t][j].frame, Drop(m, t, j);
    Unbook(live, PagesUsed(m), stacks, other, f);
    assert n.tables.Keys == m.tables.Keys;
    if m.count[f] == 1 {
      assert PagesUsed(n) == PagesUsed(m) - {f};
    } else {
      assert PagesUsed(n) == PagesUsed(m);
    }
  }

  lemma AccountsRemoveTable(live: map<nat, nat>, m: Mmu, stacks: map<nat, nat>, other: map<nat, nat>, d: nat, i: nat, t: nat)
    requires Accounts(live, m, stacks, other) && Owns(m.dirs, d, i, t) && t in m.tables
    ensures t in live && Accounts(live - {t}, RemoveTable(m, d, i, t), stacks, other)
  {
    var n := RemoveTable(m, d, i, t);
    hide Booked;
    Unbook(live, PagesUsed(m), stacks, other, t);
    assert n.dirs.Keys == m.dirs.Keys;
    assert PagesUsed(n) == PagesUsed(m) - {t};
  }

  lemma AccountsRemoveDir(live: map<nat, nat>, m: Mmu, stacks: map<nat, nat>, other: map<nat, nat>, d: nat)
    requires Accounts(live, m, stacks, other) && d in m.dirs
    ensures d in live && Accounts(live - {d}, RemoveDir(m, d), stacks, other)
  {
    hide Booked;
    Unbook(live, PagesUsed(m), stacks, other, d);
    assert PagesUsed(RemoveDir(m, d)) == PagesUsed(m) - {d};
  }

  lemma AccountsRemoveStack(live: map<nat, nat>, m: Mmu, stacks: map<nat, nat>, other: map<nat, nat>, d: nat)
    requires Accounts(live, m, stacks, other) && d in stacks
    ensures stacks[d] in live && Accounts(live - {stacks[d]}, m, stacks - {d}, other)
  {
    hide Blocks, PagesUsed;
    var a := stacks[d];
    assert a in stacks.Values;
    BlocksRemove(PagesUsed(m), stacks.Values, other, a);
    ValuesAdd(stacks - {d}, d, a);
    assert (stacks - {d})[d := a] == stacks;
    assert a !in (stacks - {d}).Values;
    assert (stacks - {d}).Values == stacks.Values - {a};
  }

  /** A store there needs a private copy first. */
  ghost predicate NeedsCopy(m: Mmu, d: nat, i: nat, j: nat) {
    && d in m.dirs && i < |m.dirs[d]| && m.dirs[d][i].Some?
    && var t := m.dirs[d][i].value;
       t in m.tables && j < |m.tables[t]| && m.tables[t][j].User? && !m.tables[t][j].writable
       && m.tables[t][j].frame < |m.count| && m.count[m.tables[t][j].frame] > 1
  }

  lemma MappedFacts(m: Mmu, d: nat, i: nat, j: nat)
    requires Inv(m) && Content(m, d, i, j).Some?
    ensures d in m.dirs && i < |m.dirs[d]| && m.dirs[d][i].Some?
    ensures var t := m.dirs[d][i].value;
            && Owns(m.dirs, d, i, t) && t in m.tables && j < |m.tables[t]| && m.tables[t][j].User?
            && m.tables[t][j].frame < |m.count|
  {
    var t := m.dirs[d][i].value;
    assert Owns(m.dirs, d, i, t);
    assert Names(m.tables, t, j, m.tables[t][j].frame);
  }

  lemma StoreFacts(m: Mmu, d: nat, i: nat, t: nat, j: nat)
    requires Inv(m) && Owns(m.dirs, d, i, t) && t in m.tables && j < |m.tables[t]| && m.tables[t][j].User?
    ensures m.tables[t][j].frame in m.frames
  {
    UserContent(m, d, i, t, j);
  }

  lemma ElsewhereAfterSame(m0: Mmu, m: Mmu, n: Mmu, d: nat, i: nat, j: nat)
    requires SameContents(m0, m) && SameElsewhere(m, n, d, i, j)
    ensures SameElsewhere(m0, n, d, i, j)
  {
    hide Content;
  }

  /** A block held back for a purpose still to be recorded. */
  lemma AccountsHeld(live: map<nat, nat>, m: Mmu, stacks: map<nat, nat>, other: map<nat, nat>, a: nat, k: nat)
    requires Accounts(live, m, stacks, other) && a !in live
    ensures a !in other && Accounts(live[a := k], m, stacks, other[a := k])
  {
    hide Booked, PagesUsed;
    BookNew(live, PagesUsed(m), stacks, other, a, k);
  }

  lemma AbsentThere(m0: Mmu, m: Mmu, d: nat, i: nat, t: nat, j: nat)
    requires Inv(m) && SameContents(m0, m) && Content(m0, d, i, j).None?
    requires d in m.dirs && i < |m.dirs[d]| && m.dirs[d][i] == Some(t) && j < ENTRIES && UserSlot(i, j)
    ensures Owns(m.dirs, d, i, t) && t in m.tables && j < |m.tables[t]| && m.tables[t][j].Absent?
  {
    assert Owns(m.dirs, d, i, t);
    assert Content(m, d, i, j).None?;
    if m.tables[t][j].User? { UserContent(m, d, i, t, j); }
  }

  lemma HeldAccounts(live: map<nat, nat>, m: Mmu, n: Mmu, stacks: map<nat, nat>, other: map<nat, nat>, a: nat)
    requires a !in other && Accounts(live, m, stacks, other[a := 0])
    requires n.dirs.Keys == m.dirs.Keys && n.tables.Keys == m.tables.Keys && n.frames.Keys == m.frames.Keys + {a}
    ensures a !in m.frames && Accounts(live, n, stacks, other)
  {
    hide Booked;
    HeldIsPage(live, PagesUsed(m), stacks, other, a);
    assert PagesUsed(n) == PagesUsed(m) + {a};
  }

  lemma HeldIsPage(live: map<nat, nat>, pages: set<nat>, stacks: map<nat, nat>, other: map<nat, nat>, a: nat)
    requires a !in other && Booked(live, pages, stacks, other[a := 0])
    ensures a !in pages && Booked(live, pages + {a}, stacks, other)
  {
    HeldApart(pages, stacks.Values, other, a, 0);
    BlocksHeld(pages, stacks.Values, other, a);
    hide Blocks;
  }

  lemma HeldApart(pages: set<nat>, stacks: set<nat>, other: map<nat, nat>, a: nat, k: nat)
    requires a !in other && pages !! stacks !! other[a := k].Keys
    ensures pages !! stacks !! other.Keys && a !in pages && a !in stacks
  {
    assert other[a := k].Keys == other.Keys + {a};
  }

  lemma BlocksHeld(pages: set<nat>, stacks: set<nat>, other: map<nat, nat>, a: nat)
    requires a !in pages && a !in stacks && a !in other
    ensures Blocks(pages + {a}, stacks, other) == Blocks(pages, stacks, other[a := 0])
    ensures Blocks(pages, stacks + {a}, other) == Blocks(pages, stacks, other[a := STACK_ORDER])
  {
  }

  lemma HeldBecomesFrame(live: map<nat, nat>, m: Mmu, stacks: map<nat, nat>, other: map<nat, nat>,
                         d: nat, i: nat, t: nat, j: nat, a: nat, page: Page)
    requires Inv(m) && Owns(m.dirs, d, i, t) && t in m.tables && j < |m.tables[t]| && UserSlot(i, j)
    requires m.tables[t][j].Absent? && a < |m.count| && a !in other
    requires Accounts(live, m, stacks, other[a := 0])
    ensures a !in m.frames && m.count[a] == 0
    ensures Inv(Fill(m, t, j, a, page)) && Accounts(live, Fill(m, t, j, a, page), stacks, other)
  {
    hide Inv, Accounts, Owns;
    HeldAccounts(live, m, Fill(m, t, j, a, page), stacks, other, a);
    FillInv(m, d, i, t, j, a, page);
  }

  /** The entry moves from its shared frame to a private copy in frame a. */
  ghost function Copied(m: Mmu, t: nat, j: nat, a: nat): Mmu
    requires t in m.tables && j < |m.tables[t]| && m.tables[t][j].User?
    requires m.tables[t][j].frame < |m.count| && m.count[m.tables[t][j].frame] > 0
    requires m.tables[t][j].frame in m.frames && a < |m.count|
  {
    var f := m.tables[t][j].frame;
    var c := m.count[f := m.count[f] - 1];
    Mmu(m.dirs, SetEntry(m.tables, t, j, User(a, true)), m.frames[a := m.frames[f]], c[a := c[a] + 1])
  }

  lemma CopyStep(live: map<nat, nat>, m: Mmu, stacks: map<nat, nat>, other: map<nat, nat>,
                 d: nat, i: nat, t: nat, j: nat, a: nat)
    requires Inv(m) && Owns(m.dirs, d, i, t) && t in m.tables && j < |m.tables[t]| && m.tables[t][j].User?
    requires m.tables[t][j].frame < |m.count| && m.count[m.tables[t][j].frame] > 1
    requires Accounts(live, m, stacks, other) && a !in live && a < |m.count|
    ensures m.tables[t][j].frame in m.frames && m.tables[t][j].frame != a
    ensures var n := Copied(m, t, j, a);
            && Inv(n) && Accounts(live[a := 0], n, stacks, other) && SameContents(m, n)
            && KernelKept(m.tables, n.tables)
  {
    hide Inv, Accounts, SameContents, SameElsewhere, Owns, KernelKept;
    KernelKeptSet(m.tables, t, j, User(a, true));
    var f := m.tables[t][j].frame;
    AccountsNew(live, m, stacks, other, a);
    DropInv(m, d, i, t, j);
    DropContents(m, d, i, t, j);
    var n := Drop(m, t, j);
    var page := m.frames[f];
    FillInvAt(m, d, i, t, j, a, page);
    CopiedContents(m, n, d, i, t, j, a, page);
    assert m.tables[t][j := Absent][j := User(a, true)] == m.tables[t][j := User(a, true)];
    assert Copied(m, t, j, a) == Fill(n, t, j, a, page);
    AccountsFill(live, m, Copied(m, t, j, a), stacks, other, a);
  }

  lemma FillInvAt(m: Mmu, d: nat, i: nat, t: nat, j: nat, a: nat, page: Page)
    requires Inv(m) && Owns(m.dirs, d, i, t) && t in m.tables && j < |m.tables[t]| && m.tables[t][j].User?
    requires m.tables[t][j].frame < |m.count| && m.count[m.tables[t][j].frame] > 1
    requires Inv(Drop(m, t, j)) && a < |m.count| && a !in m.frames
    ensures m.tables[t][j].frame != a
    ensures Drop(m, t, j).count[a] == 0 && Inv(Fill(Drop(m, t, j), t, j, a, page))
  {
    hide Owned, Counted, FramesOk, Sole;
    DropInv(m, d, i, t, j);
    FillInv(Drop(m, t, j), d, i, t, j, a, page);
  }

  lemma AccountsFill(live: map<nat, nat>, m: Mmu, n: Mmu, stacks: map<nat, nat>, other: map<nat, nat>, a: nat)
    requires Accounts(live, m, stacks, other) && a !in live
    requires n.dirs.Keys == m.dirs.Keys && n.tables.Keys == m.tables.Keys && n.frames.Keys == m.frames.Keys + {a}
    ensures Accounts(live[a := 0], n, stacks, other)
  {
    hide Booked;
    BookNew(live, PagesUsed(m), stacks, other, a, 0);
    assert PagesUsed(n) == PagesUsed(m) + {a};
  }

  /** After the copy everyone, the faulting process included, reads what it read before. */
  lemma CopiedContents(m: Mmu, n: Mmu, d: nat, i: nat, t: nat, j: nat, a: nat, page: Page)
    requires Inv(m) && Inv(n) && Owns(m.dirs, d, i, t) && t in m.tables && j < |m.tables[t]| && m.tables[t][j].User?
    requires m.tables[t][j].frame in m.frames && page == m.frames[m.tables[t][j].frame]
    requires n.dirs == m.dirs && t in n.tables && j < |n.tables[t]| && n.tables[t][j].Absent?
    requires SameElsewhere(m, n, d, i, j) && a < |n.count| && a !in n.frames
    ensures SameContents(m, Fill(n, t, j, a, page))
  {
    hide Inv, Content;
    UserContent(m, d, i, t, j);
    FillContents(n, d, i, t, j, a, page);
  }

  lemma CloneFacts(m0: Mmu, m: Mmu, stacks: map<nat, nat>, p: nat, c: nat, a: nat, userspace: bool)
    requires CloneOf(m0, m, p, c, userspace) && Complete(m0.dirs, stacks)
    ensures c !in m0.dirs && c !in stacks && Complete(m.dirs, stacks[c := a])
    ensures stacks[c := a] - {c} == stacks && stacks[c := a].Keys == stacks.Keys + {c}
  {
    hide Content, KeepsFrames;
  }

  /** A stack held for a new process becomes that process' stack. */
  lemma StackMoves(live: map<nat, nat>, m: Mmu, stacks: map<nat, nat>, other: map<nat, nat>, c: nat, a: nat)
    requires a !in other && Accounts(live, m, stacks, other[a := STACK_ORDER]) && c !in stacks
    ensures Accounts(live, m, stacks[c := a], other)
  {
    hide PagesUsed;
    var pages := PagesUsed(m);
    HeldApart(pages, stacks.Values, other, a, STACK_ORDER);
    BlocksHeld(pages, stacks.Values, other, a);
    hide Blocks;
    ValuesAdd(stacks, c, a);
  }

  lemma ValuesAdd(s: map<nat, nat>, c: nat, a: nat)
    requires c !in s
    ensures s[c := a].Values == s.Values + {a}
  {
    var u := s[c := a];
    assert u[c] == a;
    forall x | x in s.Values
      ensures x in u.Values
    {
      var k :| k in s && s[k] == x;
      assert u[k] == x;
    }
  }

  /** Process c is new and reads everywhere what p reads (nothing, for a kernel process); every other
      process reads what it read before; no frame was added or dropped; low memory is mapped as p maps it. */
  ghost predicate CloneOf(m0: Mmu, m: Mmu, p: nat, c: nat, userspace: bool) {
    && c !in m0.dirs && m.dirs.Keys == m0.dirs.Keys + {c} && m.frames == m0.frames
    && (forall d: nat, k: nat, y: nat :: d != c ==> Content(m, d, k, y) == Content(m0, d, k, y))
    && (forall k: nat, y: nat :: Content(m, c, k, y) == if userspace then Content(m0, p, k, y) else None)
    && |m.dirs[c]| == DIRS && m.dirs[c][0].Some? && m.dirs[c][LAST_DIR].Some?
    && (forall d :: d in m0.dirs ==> m.dirs[d] == m0.dirs[d])
    && (forall t :: t in m0.tables ==> KeepsFrames(m0.tables, m.tables, t))
    && LowOf(m.dirs, m.tables, c) == LowOf(m0.dirs, m0.tables, p)
  }

  lemma SameContentsSelf(m: Mmu)
    ensures SameContents(m, m)
  {
  }

  lemma LowLegal(m: Mmu, p: nat, pt: nat)
    requires Inv(m) && Owns(m.dirs, p, 0, pt) && pt in m.tables && |m.tables[pt]| == ENTRIES
    ensures forall j :: 0 <= j < FIRST_USER ==> !m.tables[pt][j].User?
  {
  }

  lemma FreshFacts(m0: Mmu, n: Mmu, p: nat, c: nat, t0: nat, t1: nat)
    requires Inv(m0) && Inv(n) && Fresh(m0, n, c, t0, t1) && p in m0.dirs && |m0.dirs[p]| == DIRS && m0.dirs[p][0].Some?
    ensures p != c && p in n.dirs && n.dirs[p] == m0.dirs[p] && Owns(n.dirs, p, 0, m0.dirs[p][0].value)
    ensures Owns(n.dirs, c, 0, t0) && EmptyFrom(n, 0, t0, FIRST_USER)
    ensures forall y: nat :: y < FIRST_USER ==> !UserSlot(0, y)
    ensures t1 in n.tables && t1 != t0 && t1 != m0.dirs[p][0].value
  {
    assert Owns(n.dirs, p, 0, m0.dirs[p][0].value) && Owns(n.dirs, c, LAST_DIR, t1);
  }

  /** The child's own stack table is not one of the tables that were there before. */
  lemma LastIsNew(m0: Mmu, m: Mmu, p: nat, c: nat)
    requires Inv(m0) && Inv(m) && Cloned(m0, m, p, c, LAST_DIR)
    ensures m.dirs[c][LAST_DIR].value !in m0.tables
  {
    var t := m.dirs[c][LAST_DIR].value;
    assert Owns(m.dirs, c, LAST_DIR, t);
    if t in m0.tables {
      var d: nat, k: nat :| Owns(m0.dirs, d, k, t);
      assert d in m.dirs - {c} && (m.dirs - {c})[d] == m.dirs[d];
      assert Owns(m.dirs, d, k, t);
    }
  }

  lemma SharedFacts(n: Mmu, q: Mmu, p: nat, c: nat, i: nat, ct: nat)
    requires Shared(n, q, p, c, i, ct, ENTRIES)
    ensures q.dirs == n.dirs && q.tables.Keys == n.tables.Keys && q.frames == n.frames && |q.count| == |n.count|
  {
  }

  lemma FreshHome(m0: Mmu, n: Mmu, c: nat, t0: nat, t1: nat)
    requires Fresh(m0, n, c, t0, t1)
    ensures KernelKept(m0.tables, n.tables) && m0.tables.Keys <= n.tables.Keys && HomeStays(n, n, c)
  {
  }

  lemma SameDirsHome(m: Mmu, n: Mmu, c: nat)
    requires c in m.dirs && |m.dirs[c]| == DIRS && n.dirs == m.dirs && KernelKept(m.tables, n.tables)
    ensures HomeStays(m, n, c)
  {
  }

  lemma AddTableHome(m: Mmu, c: nat, i: nat, t: nat, s: seq<Entry>)
    requires c in m.dirs && |m.dirs[c]| == DIRS && 0 < i < LAST_DIR && t !in m.tables
    ensures HomeStays(m, AddTable(m, c, i, t, s), c)
  {
  }

  /** The loops over user pages leave the child the stack and the low memory that it was made with. */
  lemma ChildHome(m0: Mmu, n: Mmu, m: Mmu, p: nat, c: nat, stack: nat)
    requires Inv(n) && Inv(m) && HomeStays(n, m, c) && n.dirs[c][0].Some?
    requires StackMapped(n.dirs, n.tables, c, stack)
    requires LowOf(n.dirs, n.tables, c) == LowOf(m0.dirs, m0.tables, p)
    requires KernelKept(m0.tables, n.tables) && m0.tables.Keys <= n.tables.Keys
    ensures StackMapped(m.dirs, m.tables, c, stack) && KernelKept(m0.tables, m.tables)
    ensures LowOf(m.dirs, m.tables, c) == LowOf(m0.dirs, m0.tables, p)
  {
    hide Inv, KernelKept, LowOf, StackMapped;
    KernelKeptJoin(m0.tables, n.tables, m.tables);
    LowKept(n, m, c);
    StackKept(n, m, c, stack);
  }

  lemma NothingCloned(m0: Mmu, n: Mmu, p: nat, c: nat, t0: nat, t1: nat)
    requires Fresh(m0, n, c, t0, t1) && LowOf(n.dirs, n.tables, c) == LowOf(m0.dirs, m0.tables, p)
    ensures CloneOf(m0, n, p, c, false)
  {
    assert n.dirs.Keys == m0.dirs.Keys + {c};
    assert forall k: nat, y: nat :: Content(m0, c, k, y) == None;
  }

  lemma AllCloned(m0: Mmu, m: Mmu, p: nat, c: nat)
    requires Inv(m0) && Inv(m) && Cloned(m0, m, p, c, DIRS)
    requires LowOf(m.dirs, m.tables, c) == LowOf(m0.dirs, m0.tables, p)
    ensures CloneOf(m0, m, p, c, true)
  {
    assert m.dirs.Keys == m0.dirs.Keys + {c};
  }

  lemma ClonedFacts(m0: Mmu, m: Mmu, p: nat, c: nat, i: nat)
    requires Inv(m0) && Inv(m) && p in m0.dirs && Cloned(m0, m, p, c, i) && 1 <= i <= LAST_DIR
    ensures p in m.dirs && p != c && m.dirs[p] == m0.dirs[p] && c in m.dirs && |m.dirs[c]| == DIRS
    ensures i < LAST_DIR ==> m.dirs[c][i] == None
    ensures m.dirs[c][LAST_DIR].Some? && Owns(m.dirs, c, LAST_DIR, m.dirs[c][LAST_DIR].value)
    ensures m.dirs[c][LAST_DIR].value in m.tables
    ensures EmptyFrom(m, LAST_DIR, m.dirs[c][LAST_DIR].value, 0)
    ensures forall t :: t in m0.tables ==> t in m.tables
    ensures i < |m.dirs[p]| && m.dirs[p][i].Some? ==>
              Owns(m.dirs, p, i, m.dirs[p][i].value) && m.dirs[p][i].value != m.dirs[c][LAST_DIR].value
    ensures i < LAST_DIR ==>
              TablesIn(m0.dirs[p], i, LAST_DIR)
              == (if m0.dirs[p][i].Some? then 1 else 0) + TablesIn(m0.dirs[p], i + 1, LAST_DIR)
  {
    assert p in m.dirs - {c};
    assert (m.dirs - {c})[p] == m.dirs[p];
    assert Owns(m.dirs, c, LAST_DIR, m.dirs[c][LAST_DIR].value);
    if i < |m.dirs[p]| && m.dirs[p][i].Some? {
      assert Owns(m.dirs, p, i, m.dirs[p][i].value);
    }
  }

  lemma BeyondBoth(m: Mmu, n: Mmu, p: nat, c: nat, i: nat)
    requires Inv(m) && Inv(n)
    ensures forall y: nat :: y >= ENTRIES ==> Content(n, c, i, y) == Content(m, p, i, y)
  {
    forall y: nat | y >= ENTRIES
      ensures Content(n, c, i, y) == Content(m, p, i, y)
    {
      BeyondTable(n, c, i, y);
      BeyondTable(m, p, i, y);
    }
  }

  /** Only table t differs, and it keeps its size. */
  ghost predicate OneTable(before: Tables, after: Tables, t: nat) {
    && after.Keys == before.Keys
    && (forall x :: x in before && x != t ==> after[x] == before[x])
    && (t in before ==> |after[t]| == |before[t]|)
  }

  lemma AccountsKeys(live: map<nat, nat>, m: Mmu, n: Mmu, stacks: map<nat, nat>, other: map<nat, nat>)
    requires Accounts(live, m, stacks, other)
    requires n.dirs.Keys == m.dirs.Keys && n.tables.Keys == m.tables.Keys && n.frames.Keys == m.frames.Keys
    ensures Accounts(live, n, stacks, other)
  {
    hide Booked;
    assert PagesUsed(n) == PagesUsed(m);
  }

  /** A table without user pages is new in slot i of directory c. */
  ghost predicate WithTable(m: Mmu, n: Mmu, c: nat, i: nat, t: nat) {
    && c in m.dirs && i < |m.dirs[c]| && n.dirs == m.dirs[c := m.dirs[c][i := Some(t)]]
    && n.frames == m.frames && |n.count| == |m.count| && SameContents(m, n)
    && t !in m.tables && n.tables.Keys == m.tables.Keys + {t}
    && (forall x :: x in m.tables ==> n.tables[x] == m.tables[x])
    && EmptyFrom(n, i, t, 0)
  }

  lemma TableMade(m0: Mmu, m: Mmu, n: Mmu, c: nat, i: nat, t: nat)
    requires c in m0.dirs && i < |m0.dirs[c]| && t !in m0.tables
    requires m == AddTable(m0, c, i, t, seq(ENTRIES, _ => Absent)) && SameContents(m0, m)
    requires n.dirs == m.dirs && n.frames == m.frames && |n.count| == |m.count| && SameContents(m, n)
    requires OneTable(m.tables, n.tables, t)
    requires forall j :: 0 <= j < ENTRIES && UserSlot(i, j) ==> n.tables[t][j] == m.tables[t][j]
    ensures WithTable(m0, n, c, i, t) && t in n.tables && |n.tables[t]| == ENTRIES
  {
    hide Content;
  }

  lemma FreshMade(m0: Mmu, m1: Mmu, m2: Mmu, m3: Mmu, c: nat, t0: nat, t1: nat)
    requires c !in m0.dirs && m1 == AddDir(m0, c) && SameContents(m0, m1)
    requires WithTable(m1, m2, c, 0, t0) && WithTable(m2, m3, c, LAST_DIR, t1)
    ensures Fresh(m0, m3, c, t0, t1)
  {
    hide Content;
  }

  lemma SharedEntryKinds(m0: Mmu, m: Mmu, p: nat, c: nat, i: nat, pt: nat, ct: nat, j: nat)
    requires Inv(m) && Shared(m0, m, p, c, i, ct, j) && p != c
    requires Owns(m.dirs, p, i, pt) && Owns(m.dirs, c, i, ct) && UserSlot(i, j)
    requires pt in m.tables && j < |m.tables[pt]| && ct in m.tables && j < |m.tables[ct]|
    ensures pt != ct && m.tables[ct][j] == Absent && !m.tables[pt][j].Kernel?
  {
  }

  /** A page just taken from the allocator belongs to no one yet. */
  lemma AccountsNew(live: map<nat, nat>, m: Mmu, stacks: map<nat, nat>, other: map<nat, nat>, a: nat)
    requires Accounts(live, m, stacks, other) && a !in live
    ensures a !in m.dirs && a !in m.tables && a !in m.frames && a !in other
    ensures Accounts(live[a := 0], AddDir(m, a), stacks, other)
  {
    hide Booked;
    BookNew(live, PagesUsed(m), stacks, other, a, 0);
    assert PagesUsed(AddDir(m, a)) == PagesUsed(m) + {a};
  }

  lemma AccountsTable(live: map<nat, nat>, m: Mmu, stacks: map<nat, nat>, other: map<nat, nat>,
                      d: nat, i: nat, t: nat, s: seq<Entry>)
    requires Accounts(live, m, stacks, other) && t !in live
    requires d in m.dirs && i < |m.dirs[d]|
    ensures Accounts(live[t := 0], AddTable(m, d, i, t, s), stacks, other)
  {
    hide Booked;
    BookNew(live, PagesUsed(m), stacks, other, t, 0);
    assert AddTable(m, d, i, t, s).dirs.Keys == m.dirs.Keys;
    assert PagesUsed(AddTable(m, d, i, t, s)) == PagesUsed(m) + {t};
  }

  lemma AccountsSame(live: map<nat, nat>, m0: Mmu, m: Mmu, stacks: map<nat, nat>, other: map<nat, nat>,
                     p: nat, c: nat, i: nat, ct: nat, n: nat)
    requires Accounts(live, m0, stacks, other) && Shared(m0, m, p, c, i, ct, n)
    ensures Accounts(live, m, stacks, other)
  {
    hide Booked;
    assert PagesUsed(m) == PagesUsed(m0);
  }
}
