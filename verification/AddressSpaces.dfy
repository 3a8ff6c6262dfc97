/** Page directories, page tables and reference counts of virtual_memory/vm.c as a value, with the
    single-entry steps that its loops are made of. Directories, tables and frames are named by
    their page number; a process is named by its page directory. */
module AddressSpaces {
  import opened Basics

  /** Contents of one frame; nothing here looks inside. */
  type Page = seq<bv8>

  /** A page-table entry: not present, one of the kernel's own mappings, or a user page. */
  datatype Entry = Absent | Kernel(page: nat) | User(frame: nat, writable: bool)

  const DIRS: nat := 768
  const ENTRIES: nat := 1024
  const FIRST_USER: nat := 256
  const LAST_DIR: nat := 767
  const STACK_LOW: nat := 1021
  const STACK_HIGH: nat := 1022

  datatype Mmu = Mmu(
    dirs: Directories,
    tables: Tables,
    frames: map<nat, Page>,
    count: seq<nat>)

  /** The first megabyte and the kernel stack are mapped by the kernel, the rest by the user. */
  predicate UserSlot(i: nat, j: nat) {
    && (i == 0 ==> j >= FIRST_USER)
    && (i == LAST_DIR ==> j != STACK_LOW && j != STACK_HIGH)
  }

  type Directories = map<nat, seq<Option<nat>>>
  type Tables = map<nat, seq<Entry>>

  ghost predicate Owns(dirs: Directories, d: nat, i: nat, t: nat) {
    d in dirs && i < |dirs[d]| && dirs[d][i] == Some(t)
  }

  ghost predicate Names(tables: Tables, t: nat, j: nat, f: nat) {
    t in tables && j < |tables[t]| && tables[t][j].User? && tables[t][j].frame == f
  }

  ghost function FrameOf(e: Entry): Option<nat> {
    if e.User? then Some(e.frame) else None
  }

  /** Table t is still there and names the same frames, entry by entry. */
  ghost predicate KeepsFrames(before: Tables, after: Tables, t: nat) {
    && t in before && t in after && |after[t]| == |before[t]|
    && forall j :: 0 <= j < |before[t]| ==> FrameOf(after[t][j]) == FrameOf(before[t][j])
  }

  ghost predicate SameKernel(a: seq<Entry>, b: seq<Entry>) {
    |a| == |b| && forall j :: 0 <= j < |a| && (a[j].Kernel? || b[j].Kernel?) ==> b[j] == a[j]
  }

  /** A table that is still there has the kernel's own mappings that it had, and no others. */
  ghost predicate KernelKept(before: Tables, after: Tables) {
    forall t :: t in before && t in after ==> SameKernel(before[t], after[t])
  }

  lemma KernelKeptJoin(a: Tables, b: Tables, c: Tables)
    requires KernelKept(a, b) && KernelKept(b, c) && (a.Keys <= b.Keys || c.Keys <= b.Keys)
    ensures KernelKept(a, c)
  {
    forall t | t in a && t in c
      ensures SameKernel(a[t], c[t])
    {
      assert t in b && SameKernel(a[t], b[t]) && SameKernel(b[t], c[t]);
    }
  }

  lemma KernelKeptSame(a: Tables, b: Tables)
    requires forall t :: t in a && t in b ==> b[t] == a[t]
    ensures KernelKept(a, b)
  {
  }

  lemma KernelKeptSet(a: Tables, t: nat, j: nat, e: Entry)
    requires t in a && j < |a[t]| && !a[t][j].Kernel? && !e.Kernel?
    ensures KernelKept(a, SetEntry(a, t, j, e)) && SetEntry(a, t, j, e).Keys == a.Keys
  {
  }

  lemma KernelKeptTwice(a: Tables, t: nat, u: nat, j: nat, e: Entry)
    requires t in a && u in a && t != u && j < |a[t]| && j < |a[u]|
    requires !a[t][j].Kernel? && !a[u][j].Kernel? && !e.Kernel?
    ensures var b := SetEntry(SetEntry(a, t, j, e), u, j, e);
            KernelKept(a, b) && b.Keys == a.Keys
  {
    hide KernelKept;
    KernelKeptSet(a, t, j, e);
    var b := SetEntry(a, t, j, e);
    KernelKeptSet(b, u, j, e);
    KernelKeptJoin(a, b, SetEntry(b, u, j, e));
  }

  /** The entries that name frame f. */
  ghost function Refs(tables: Tables, f: nat): set<(nat, nat)> {
    set t: nat, j: nat | t in tables && j < ENTRIES && Names(tables, t, j, f) :: (t, j)
  }

  // ------------------------------------------------------------ the invariant

  ghost predicate Shaped(m: Mmu) {
    && (forall d :: d in m.dirs ==> |m.dirs[d]| == DIRS)
    && (forall t :: t in m.tables ==> |m.tables[t]| == ENTRIES)
  }

  /** Every table belongs to exactly one slot of one directory. */
  ghost predicate Owned(m: Mmu) {
    && (forall d: nat, i: nat, t: nat :: Owns(m.dirs, d, i, t) ==> t in m.tables)
    && (forall d: nat, i: nat, e: nat, k: nat, t: nat :: Owns(m.dirs, d, i, t) && Owns(m.dirs, e, k, t) ==> d == e && i == k)
    && (forall t :: t in m.tables ==> exists d: nat, i: nat :: Owns(m.dirs, d, i, t))
  }

  predicate Legal(i: nat, j: nat, e: Entry) {
    (e.User? ==> UserSlot(i, j)) && (e.Kernel? ==> !UserSlot(i, j))
  }

  /** User pages stand in user slots, the kernel's mappings in the kernel's. */
  ghost predicate SlotsOk(m: Mmu) {
    forall d: nat, i: nat, t: nat, j: nat ::
      Owns(m.dirs, d, i, t) && t in m.tables && j < |m.tables[t]| ==> Legal(i, j, m.tables[t][j])
  }

  /** The count of a frame is the number of entries that name it. */
  ghost predicate Counted(m: Mmu) {
    forall f :: 0 <= f < |m.count| ==> m.count[f] == |Refs(m.tables, f)|
  }

  /** The user frames are exactly the frames that some entry names. */
  ghost predicate FramesOk(m: Mmu) {
    && (forall t: nat, j: nat, f: nat :: Names(m.tables, t, j, f) ==> f < |m.count| && f in m.frames)
    && (forall f :: f in m.frames ==> f < |m.count| && m.count[f] > 0)
  }

  /** A frame that can be written through some entry is named by that entry only. */
  ghost predicate Sole(m: Mmu) {
    forall t: nat, j: nat, f: nat :: Names(m.tables, t, j, f) && m.tables[t][j].writable && f < |m.count| ==> m.count[f] == 1
  }

  ghost predicate Inv(m: Mmu) {
    Shaped(m) && Owned(m) && SlotsOk(m) && Counted(m) && FramesOk(m) && Sole(m)
  }

  /** What the process with directory d reads at entry j of its table i. */
  ghost function Content(m: Mmu, d: nat, i: nat, j: nat): Option<Page> {
    if d in m.dirs && i < |m.dirs[d]| && m.dirs[d][i].Some?
       && m.dirs[d][i].value in m.tables && j < |m.tables[m.dirs[d][i].value]|
    then ContentOf(m.tables[m.dirs[d][i].value][j], m.frames)
    else None
  }

  ghost function ContentOf(e: Entry, frames: map<nat, Page>): Option<Page> {
    if e.User? && e.frame in frames then Some(frames[e.frame]) else None
  }

  // ------------------------------------------------------------ one entry changes

  ghost function SetEntry(tables: Tables, t: nat, j: nat, e: Entry): Tables
    requires t in tables && j < |tables[t]|
  {
    tables[t := tables[t][j := e]]
  }

  lemma RefsSet(tables: Tables, t: nat, j: nat, e: Entry, f: nat)
    requires t in tables && j < |tables[t]| <= ENTRIES
    ensures Refs(SetEntry(tables, t, j, e), f)
         == Refs(tables, f) - {(t, j)} + (if e.User? && e.frame == f then {(t, j)} else {})
    ensures (t, j) in Refs(tables, f) <==> tables[t][j].User? && tables[t][j].frame == f
  {
    var u := SetEntry(tables, t, j, e);
    forall x: nat, y: nat
      ensures Names(u, x, y, f) <==> if x == t && y == j then e.User? && e.frame == f else Names(tables, x, y, f)
    {
    }
    assert (t, j) in Refs(tables, f) <==> Names(tables, t, j, f);
  }

  /** How one entry's change moves the number of references to f. */
  lemma RefCount(tables: Tables, t: nat, j: nat, e: Entry, f: nat)
    requires t in tables && j < |tables[t]| <= ENTRIES
    ensures |Refs(SetEntry(tables, t, j, e), f)|
         == |Refs(tables, f)|
            - (if tables[t][j].User? && tables[t][j].frame == f then 1 else 0)
            + (if e.User? && e.frame == f then 1 else 0)
  {
    hide Refs, SetEntry, Names;
    RefsSet(tables, t, j, e, f);
    var r := Refs(tables, f);
    if (t, j) in r {
      assert r == (r - {(t, j)}) + {(t, j)};
    } else {
      assert r - {(t, j)} == r;
    }
  }

  /** The entry of table t at j is replaced; the counts follow. */
  ghost predicate Recounted(m: Mmu, n: Mmu, t: nat, j: nat, e: Entry) {
    && t in m.tables && j < |m.tables[t]|
    && n.dirs == m.dirs && n.tables == SetEntry(m.tables, t, j, e)
    && |n.count| == |m.count|
    && forall f :: 0 <= f < |m.count| ==>
         n.count[f] as int == m.count[f] as int
                       - (if m.tables[t][j].User? && m.tables[t][j].frame == f then 1 else 0)
                       + (if e.User? && e.frame == f then 1 else 0)
  }

  lemma RecountedCounted(m: Mmu, n: Mmu, t: nat, j: nat, e: Entry)
    requires Shaped(m) && Counted(m) && Recounted(m, n, t, j, e)
    ensures Shaped(n) && Counted(n)
  {
    forall f | 0 <= f < |n.count|
      ensures n.count[f] == |Refs(n.tables, f)|
    {
      RefCount(m.tables, t, j, e, f);
    }
  }

  lemma RecountedOwned(m: Mmu, n: Mmu, t: nat, j: nat, e: Entry)
    requires Owned(m) && Recounted(m, n, t, j, e)
    ensures Owned(n)
  {
  }

  lemma RecountedNames(m: Mmu, n: Mmu, t: nat, j: nat, e: Entry, x: nat, y: nat, f: nat)
    requires Recounted(m, n, t, j, e) && Names(n.tables, x, y, f)
    ensures if x == t && y == j then e.User? && e.frame == f
            else Names(m.tables, x, y, f) && n.tables[x][y] == m.tables[x][y]
  {
  }

  lemma RecountedSlots(m: Mmu, n: Mmu, d: nat, i: nat, t: nat, j: nat, e: Entry)
    requires Owned(m) && SlotsOk(m) && Recounted(m, n, t, j, e)
    requires Owns(m.dirs, d, i, t) && Legal(i, j, e)
    ensures SlotsOk(n)
  {
  }

  /** A set with a known member and one element has no other member. */
  lemma OnlyMember<T>(s: set<T>, a: T, b: T)
    requires |s| == 1 && a in s && b in s
    ensures a == b
  {
    var r := s - {a};
    assert |r| == 0;
    assert r == {};
    assert b !in r;
  }

  lemma NamesCounted(m: Mmu, t: nat, j: nat, f: nat)
    requires Inv(m) && Names(m.tables, t, j, f)
    ensures f < |m.count| && f in m.frames && m.count[f] == |Refs(m.tables, f)| && (t, j) in Refs(m.tables, f)
    ensures m.count[f] > 0
  {
    assert (t, j) in Refs(m.tables, f);
    assert Refs(m.tables, f) != {};
  }

  /** Writable entries have no rival: another entry for the same frame cannot exist. */
  lemma SoleNoRival(m: Mmu, t: nat, j: nat, x: nat, y: nat, f: nat)
    requires Inv(m) && Names(m.tables, t, j, f) && m.tables[t][j].writable && Names(m.tables, x, y, f)
    ensures x == t && y == j
  {
    NamesCounted(m, t, j, f);
    NamesCounted(m, x, y, f);
    OnlyMember(Refs(m.tables, f), (t, j), (x, y));
  }

  /** What is left to check once an entry has been replaced and the counts adjusted. */
  lemma RecountedInv(m: Mmu, n: Mmu, d: nat, i: nat, t: nat, j: nat, e: Entry)
    requires Inv(m) && Recounted(m, n, t, j, e) && Owns(m.dirs, d, i, t)
    requires Legal(i, j, e)
    requires FramesOk(n) && Sole(n)
    ensures Inv(n)
  {
    hide Owned, SlotsOk, Counted, FramesOk, Sole, Recounted;
    RecountedCounted(m, n, t, j, e);
    RecountedOwned(m, n, t, j, e);
    RecountedSlots(m, n, d, i, t, j, e);
  }

  // ------------------------------------------------------------ the steps

  /** Clearing the write bit. */
  ghost function Protect(m: Mmu, t: nat, j: nat): Mmu
    requires t in m.tables && j < |m.tables[t]| && m.tables[t][j].User?
  {
    m.(tables := SetEntry(m.tables, t, j, User(m.tables[t][j].frame, false)))
  }

  lemma ProtectInv(m: Mmu, d: nat, i: nat, t: nat, j: nat)
    requires Inv(m) && Owns(m.dirs, d, i, t) && t in m.tables && j < |m.tables[t]| && m.tables[t][j].User?
    ensures Inv(Protect(m, t, j))
  {
    var f := m.tables[t][j].frame;
    var e, n := User(f, false), Protect(m, t, j);
    assert Names(m.tables, t, j, f);
    forall x: nat, y: nat, g: nat | Names(n.tables, x, y, g)
      ensures g < |n.count| && g in n.frames
      ensures n.tables[x][y].writable ==> n.count[g] == 1
    {
      RecountedNames(m, n, t, j, e, x, y, g);
    }
    RecountedInv(m, n, d, i, t, j, e);
  }

  /** A second entry for a frame, read-only like the first. */
  ghost function Share(m: Mmu, t: nat, j: nat, f: nat): Mmu
    requires t in m.tables && j < |m.tables[t]| && f < |m.count|
  {
    m.(tables := SetEntry(m.tables, t, j, User(f, false)), count := m.count[f := m.count[f] + 1])
  }

  lemma ShareInv(m: Mmu, d: nat, i: nat, t: nat, j: nat, f: nat, x0: nat, y0: nat)
    requires Inv(m) && Owns(m.dirs, d, i, t) && t in m.tables && j < |m.tables[t]| && UserSlot(i, j)
    requires m.tables[t][j].Absent?
    requires Names(m.tables, x0, y0, f) && !m.tables[x0][y0].writable
    ensures f < |m.count| && Inv(Share(m, t, j, f))
  {
    NamesCounted(m, x0, y0, f);
    var e, n := User(f, false), Share(m, t, j, f);
    forall x: nat, y: nat, g: nat | Names(n.tables, x, y, g)
      ensures g < |n.count| && g in n.frames
      ensures n.tables[x][y].writable ==> n.count[g] == 1
    {
      RecountedNames(m, n, t, j, e, x, y, g);
      if n.tables[x][y].writable && g == f {
        SoleNoRival(m, x, y, x0, y0, f);
      }
    }
    RecountedInv(m, n, d, i, t, j, e);
  }

  /** Removing an entry: the frame goes with its last reference. */
  ghost function Drop(m: Mmu, t: nat, j: nat): Mmu
    requires t in m.tables && j < |m.tables[t]| && m.tables[t][j].User?
    requires m.tables[t][j].frame < |m.count| && m.count[m.tables[t][j].frame] > 0
  {
    var f := m.tables[t][j].frame;
    m.(tables := SetEntry(m.tables, t, j, Absent),
       count := m.count[f := m.count[f] - 1],
       frames := if m.count[f] == 1 then m.frames - {f} else m.frames)
  }

  lemma DropInv(m: Mmu, d: nat, i: nat, t: nat, j: nat)
    requires Inv(m) && Owns(m.dirs, d, i, t) && t in m.tables && j < |m.tables[t]| && m.tables[t][j].User?
    ensures m.tables[t][j].frame < |m.count| && m.tables[t][j].frame in m.frames
    ensures m.count[m.tables[t][j].frame] > 0 && Inv(Drop(m, t, j))
  {
    var f := m.tables[t][j].frame;
    assert Names(m.tables, t, j, f);
    NamesCounted(m, t, j, f);
    var n := Drop(m, t, j);
    forall x: nat, y: nat, g: nat | Names(n.tables, x, y, g)
      ensures g < |n.count| && g in n.frames
      ensures n.tables[x][y].writable ==> n.count[g] == 1
    {
      RecountedNames(m, n, t, j, Absent, x, y, g);
      NamesCounted(m, x, y, g);
      if g == f {
        if m.count[f] == 1 { OnlyMember(Refs(m.tables, f), (t, j), (x, y)); }
        if m.tables[x][y].writable { SoleNoRival(m, x, y, t, j, f); }
      }
    }
    RecountedInv(m, n, d, i, t, j, Absent);
  }

  /** A frame of one's own: count one, writable. */
  ghost function Fill(m: Mmu, t: nat, j: nat, f: nat, page: Page): Mmu
    requires t in m.tables && j < |m.tables[t]| && f < |m.count|
  {
    m.(tables := SetEntry(m.tables, t, j, User(f, true)),
       count := m.count[f := m.count[f] + 1],
       frames := m.frames[f := page])
  }

  lemma FillInv(m: Mmu, d: nat, i: nat, t: nat, j: nat, f: nat, page: Page)
    requires Inv(m) && Owns(m.dirs, d, i, t) && t in m.tables && j < |m.tables[t]| && UserSlot(i, j)
    requires m.tables[t][j].Absent? && f < |m.count| && f !in m.frames
    ensures m.count[f] == 0 && Inv(Fill(m, t, j, f, page))
  {
    assert Refs(m.tables, f) == {};
    var e, n := User(f, true), Fill(m, t, j, f, page);
    forall x: nat, y: nat, g: nat | Names(n.tables, x, y, g)
      ensures g < |n.count| && g in n.frames
      ensures n.tables[x][y].writable ==> n.count[g] == 1
    {
      RecountedNames(m, n, t, j, e, x, y, g);
    }
    RecountedInv(m, n, d, i, t, j, e);
  }

  /** Setting the write bit on the only entry of a frame. */
  ghost function TakeOver(m: Mmu, t: nat, j: nat): Mmu
    requires t in m.tables && j < |m.tables[t]| && m.tables[t][j].User?
  {
    m.(tables := SetEntry(m.tables, t, j, User(m.tables[t][j].frame, true)))
  }

  lemma TakeOverInv(m: Mmu, d: nat, i: nat, t: nat, j: nat)
    requires Inv(m) && Owns(m.dirs, d, i, t) && t in m.tables && j < |m.tables[t]| && m.tables[t][j].User?
    requires m.tables[t][j].frame < |m.count| && m.count[m.tables[t][j].frame] <= 1
    ensures Inv(TakeOver(m, t, j))
  {
    var f := m.tables[t][j].frame;
    var e, n := User(f, true), TakeOver(m, t, j);
    assert Names(m.tables, t, j, f);
    NamesCounted(m, t, j, f);
    forall x: nat, y: nat, g: nat | Names(n.tables, x, y, g)
      ensures g < |n.count| && g in n.frames
      ensures n.tables[x][y].writable ==> n.count[g] == 1
    {
      RecountedNames(m, n, t, j, e, x, y, g);
    }
    RecountedInv(m, n, d, i, t, j, e);
  }

  // ------------------------------------------------------------ what the steps do to contents

  /** Only the process d, at entry j of its table i, may read something else than before. */
  ghost predicate SameElsewhere(m: Mmu, n: Mmu, d: nat, i: nat, j: nat) {
    forall c: nat, k: nat, y: nat :: !(c == d && k == i && y == j) ==> Content(n, c, k, y) == Content(m, c, k, y)
  }

  ghost predicate SameContents(m: Mmu, n: Mmu) {
    forall c: nat, k: nat, y: nat :: Content(n, c, k, y) == Content(m, c, k, y)
  }

  lemma StepContents(m: Mmu, n: Mmu, d: nat, i: nat, t: nat, j: nat, e: Entry)
    requires Shaped(m) && Owned(m) && Recounted(m, n, t, j, e) && Owns(m.dirs, d, i, t)
    requires forall x: nat, y: nat, g: nat :: Names(m.tables, x, y, g) && (x, y) != (t, j) ==>
               (g in n.frames <==> g in m.frames) && (g in m.frames ==> n.frames[g] == m.frames[g])
    ensures SameElsewhere(m, n, d, i, j)
    ensures Content(n, d, i, j) == ContentOf(e, n.frames)
    ensures Content(m, d, i, j) == ContentOf(m.tables[t][j], m.frames)
  {
    forall c: nat, k: nat, y: nat | !(c == d && k == i && y == j)
      ensures Content(n, c, k, y) == Content(m, c, k, y)
    {
      if c in m.dirs && k < |m.dirs[c]| && m.dirs[c][k].Some? {
        var x := m.dirs[c][k].value;
        assert Owns(m.dirs, c, k, x);
        if x in m.tables && y < |m.tables[x]| && m.tables[x][y].User? {
          assert Names(m.tables, x, y, m.tables[x][y].frame);
        }
      }
    }
  }

  lemma ProtectContents(m: Mmu, d: nat, i: nat, t: nat, j: nat)
    requires Inv(m) && Owns(m.dirs, d, i, t) && t in m.tables && j < |m.tables[t]| && m.tables[t][j].User?
    ensures SameContents(m, Protect(m, t, j))
  {
    StepContents(m, Protect(m, t, j), d, i, t, j, User(m.tables[t][j].frame, false));
  }

  lemma ShareContents(m: Mmu, d: nat, i: nat, t: nat, j: nat, f: nat)
    requires Inv(m) && Owns(m.dirs, d, i, t) && t in m.tables && j < |m.tables[t]|
    requires m.tables[t][j].Absent? && f < |m.count| && f in m.frames
    ensures SameElsewhere(m, Share(m, t, j, f), d, i, j)
    ensures Content(Share(m, t, j, f), d, i, j) == Some(m.frames[f])
  {
    StepContents(m, Share(m, t, j, f), d, i, t, j, User(f, false));
  }

  lemma DropContents(m: Mmu, d: nat, i: nat, t: nat, j: nat)
    requires Inv(m) && Owns(m.dirs, d, i, t) && t in m.tables && j < |m.tables[t]| && m.tables[t][j].User?
    requires m.tables[t][j].frame < |m.count| && m.count[m.tables[t][j].frame] > 0
    ensures SameElsewhere(m, Drop(m, t, j), d, i, j)
    ensures Content(Drop(m, t, j), d, i, j) == None
  {
    var f := m.tables[t][j].frame;
    assert Names(m.tables, t, j, f);
    forall x: nat, y: nat, g: nat | Names(m.tables, x, y, g) && (x, y) != (t, j)
      ensures g in Drop(m, t, j).frames <==> g in m.frames
    {
      if g == f && m.count[f] == 1 {
        NamesCounted(m, x, y, f);
        NamesCounted(m, t, j, f);
        OnlyMember(Refs(m.tables, f), (t, j), (x, y));
      }
    }
    StepContents(m, Drop(m, t, j), d, i, t, j, Absent);
  }

  lemma FillContents(m: Mmu, d: nat, i: nat, t: nat, j: nat, f: nat, page: Page)
    requires Inv(m) && Owns(m.dirs, d, i, t) && t in m.tables && j < |m.tables[t]|
    requires m.tables[t][j].Absent? && f < |m.count| && f !in m.frames
    ensures SameElsewhere(m, Fill(m, t, j, f, page), d, i, j)
    ensures Content(Fill(m, t, j, f, page), d, i, j) == Some(page)
  {
    StepContents(m, Fill(m, t, j, f, page), d, i, t, j, User(f, true));
  }

  lemma TakeOverContents(m: Mmu, d: nat, i: nat, t: nat, j: nat)
    requires Inv(m) && Owns(m.dirs, d, i, t) && t in m.tables && j < |m.tables[t]| && m.tables[t][j].User?
    ensures SameContents(m, TakeOver(m, t, j))
  {
    StepContents(m, TakeOver(m, t, j), d, i, t, j, User(m.tables[t][j].frame, true));
  }

  /** A store through a writable entry: no other entry names the frame, so no one else sees it. */
  ghost function Store(m: Mmu, f: nat, page: Page): Mmu {
    m.(frames := m.frames[f := page])
  }

  lemma StoreInv(m: Mmu, d: nat, i: nat, t: nat, j: nat, page: Page)
    requires Inv(m) && Owns(m.dirs, d, i, t) && t in m.tables && j < |m.tables[t]|
    requires m.tables[t][j].User? && m.tables[t][j].writable
    ensures Inv(Store(m, m.tables[t][j].frame, page))
    ensures SameElsewhere(m, Store(m, m.tables[t][j].frame, page), d, i, j)
    ensures Content(Store(m, m.tables[t][j].frame, page), d, i, j) == Some(page)
  {
    var f := m.tables[t][j].frame;
    var n := Store(m, f, page);
    assert Names(m.tables, t, j, f);
    NamesCounted(m, t, j, f);
    assert m.tables[t][j := m.tables[t][j]] == m.tables[t];
    assert SetEntry(m.tables, t, j, m.tables[t][j]) == m.tables;
    forall x: nat, y: nat, g: nat | Names(m.tables, x, y, g) && (x, y) != (t, j)
      ensures (g in n.frames <==> g in m.frames) && (g in m.frames ==> n.frames[g] == m.frames[g])
    {
      if g == f { SoleNoRival(m, t, j, x, y, f); }
    }
    StepContents(m, n, d, i, t, j, m.tables[t][j]);
  }

  /** One of the kernel's own mappings. */
  ghost function SetKernel(m: Mmu, t: nat, j: nat, e: Entry): Mmu
    requires t in m.tables && j < |m.tables[t]|
  {
    m.(tables := SetEntry(m.tables, t, j, e))
  }

  lemma SetKernelInv(m: Mmu, d: nat, i: nat, t: nat, j: nat, e: Entry)
    requires Inv(m) && Owns(m.dirs, d, i, t) && t in m.tables && j < |m.tables[t]|
    requires !UserSlot(i, j) && !e.User?
    ensures Inv(SetKernel(m, t, j, e)) && SameContents(m, SetKernel(m, t, j, e))
  {
    var n := SetKernel(m, t, j, e);
    forall x: nat, y: nat, g: nat | Names(n.tables, x, y, g)
      ensures g < |n.count| && g in n.frames
      ensures n.tables[x][y].writable ==> n.count[g] == 1
    {
      RecountedNames(m, n, t, j, e, x, y, g);
    }
    RecountedInv(m, n, d, i, t, j, e);
    StepContents(m, n, d, i, t, j, e);
  }

  // ------------------------------------------------------------ tables and directories come and go

  ghost predicate Blank(s: seq<Entry>) {
    |s| == ENTRIES && forall j :: 0 <= j < |s| ==> !s[j].User?
  }

  ghost function AddTable(m: Mmu, d: nat, i: nat, t: nat, s: seq<Entry>): Mmu
    requires d in m.dirs && i < |m.dirs[d]|
  {
    m.(dirs := m.dirs[d := m.dirs[d][i := Some(t)]], tables := m.tables[t := s])
  }

  ghost function RemoveTable(m: Mmu, d: nat, i: nat, t: nat): Mmu
    requires d in m.dirs && i < |m.dirs[d]|
  {
    m.(dirs := m.dirs[d := m.dirs[d][i := None]], tables := m.tables - {t})
  }

  /** Two table sets that differ only in tables without user entries name the same frames. */
  lemma SameNames(m: Mmu, n: Mmu)
    requires Counted(m) && FramesOk(m) && Sole(m)
    requires n.frames == m.frames && n.count == m.count
    requires forall x: nat, y: nat, g: nat :: Names(n.tables, x, y, g) <==> Names(m.tables, x, y, g)
    requires forall x: nat, y: nat, g: nat :: Names(n.tables, x, y, g) ==> n.tables[x][y] == m.tables[x][y]
    ensures Counted(n) && FramesOk(n) && Sole(n)
  {
    forall f | 0 <= f < |n.count|
      ensures n.count[f] == |Refs(n.tables, f)|
    {
      assert Refs(n.tables, f) == Refs(m.tables, f);
    }
  }

  lemma AddTableInv(m: Mmu, d: nat, i: nat, t: nat, s: seq<Entry>)
    requires Inv(m) && d in m.dirs && i < DIRS && m.dirs[d][i] == None
    requires t !in m.tables && |s| == ENTRIES && forall j :: 0 <= j < |s| ==> s[j] == Absent
    ensures i < |m.dirs[d]| && Inv(AddTable(m, d, i, t, s)) && SameContents(m, AddTable(m, d, i, t, s))
  {
    hide Counted, Sole, FramesOk, Owned;
    var n := AddTable(m, d, i, t, s);
    AddTableOwned(m, d, i, t, s);
    SameNames(m, n);
    AddTableContents(m, d, i, t, s);
  }

  lemma AddTableContents(m: Mmu, d: nat, i: nat, t: nat, s: seq<Entry>)
    requires Shaped(m) && Owned(m) && d in m.dirs && i < |m.dirs[d]| && m.dirs[d][i] == None
    requires t !in m.tables && forall j :: 0 <= j < |s| ==> s[j] == Absent
    ensures SameContents(m, AddTable(m, d, i, t, s))
  {
    forall c: nat, k: nat, y: nat
      ensures Content(AddTable(m, d, i, t, s), c, k, y) == Content(m, c, k, y)
    {
      if c in m.dirs && k < |m.dirs[c]| && m.dirs[c][k].Some? {
        assert Owns(m.dirs, c, k, m.dirs[c][k].value);
      }
    }
  }

  lemma AddTableOwns(m: Mmu, d: nat, i: nat, t: nat, s: seq<Entry>)
    requires Shaped(m) && d in m.dirs && i < |m.dirs[d]| && m.dirs[d][i] == None
    ensures forall c: nat, k: nat, x: nat :: Owns(AddTable(m, d, i, t, s).dirs, c, k, x) <==>
              Owns(m.dirs, c, k, x) || (c == d && k == i && x == t)
  {
  }

  lemma AddTableOwned(m: Mmu, d: nat, i: nat, t: nat, s: seq<Entry>)
    requires Shaped(m) && Owned(m) && d in m.dirs && i < |m.dirs[d]| && m.dirs[d][i] == None && t !in m.tables
    ensures Owned(AddTable(m, d, i, t, s))
    ensures forall c: nat, k: nat, x: nat :: Owns(AddTable(m, d, i, t, s).dirs, c, k, x) <==>
              Owns(m.dirs, c, k, x) || (c == d && k == i && x == t)
  {
    var n := AddTable(m, d, i, t, s);
    AddTableOwns(m, d, i, t, s);
    forall x | x in n.tables
      ensures exists c: nat, k: nat :: Owns(n.dirs, c, k, x)
    {
      if x == t {
        assert Owns(n.dirs, d, i, t);
      } else {
        var c: nat, k: nat :| Owns(m.dirs, c, k, x);
        assert Owns(n.dirs, c, k, x);
      }
    }
  }

  lemma RemoveTableInv(m: Mmu, d: nat, i: nat, t: nat)
    requires Inv(m) && Owns(m.dirs, d, i, t) && t in m.tables && Blank(m.tables[t])
    ensures Inv(RemoveTable(m, d, i, t)) && SameContents(m, RemoveTable(m, d, i, t))
  {
    hide Owned;
    var n := RemoveTable(m, d, i, t);
    RemoveTableOwned(m, d, i, t);
    SameNames(m, n);
  }

  lemma RemoveTableOwns(m: Mmu, d: nat, i: nat, t: nat)
    requires Shaped(m) && Owns(m.dirs, d, i, t)
    ensures forall c: nat, k: nat, x: nat :: Owns(RemoveTable(m, d, i, t).dirs, c, k, x) <==>
              Owns(m.dirs, c, k, x) && !(c == d && k == i)
  {
  }

  lemma RemoveTableOwned(m: Mmu, d: nat, i: nat, t: nat)
    requires Shaped(m) && Owned(m) && Owns(m.dirs, d, i, t)
    ensures Owned(RemoveTable(m, d, i, t))
    ensures forall c: nat, k: nat, x: nat :: Owns(RemoveTable(m, d, i, t).dirs, c, k, x) <==>
              Owns(m.dirs, c, k, x) && !(c == d && k == i)
  {
    var n := RemoveTable(m, d, i, t);
    RemoveTableOwns(m, d, i, t);
    forall x | x in n.tables
      ensures exists c: nat, k: nat :: Owns(n.dirs, c, k, x)
    {
      var c: nat, k: nat :| Owns(m.dirs, c, k, x);
      assert Owns(n.dirs, c, k, x);
    }
  }

  ghost function AddDir(m: Mmu, d: nat): Mmu {
    m.(dirs := m.dirs[d := seq(DIRS, _ => None)])
  }

  ghost function RemoveDir(m: Mmu, d: nat): Mmu {
    m.(dirs := m.dirs - {d})
  }

  ghost predicate EmptyDir(m: Mmu, d: nat) {
    d in m.dirs && forall i :: 0 <= i < |m.dirs[d]| ==> m.dirs[d][i] == None
  }

  lemma AddDirInv(m: Mmu, d: nat)
    requires Inv(m) && d !in m.dirs
    ensures Inv(AddDir(m, d)) && SameContents(m, AddDir(m, d)) && EmptyDir(AddDir(m, d), d)
  {
    DirsOwned(m, AddDir(m, d));
  }

  lemma RemoveDirInv(m: Mmu, d: nat)
    requires Inv(m) && EmptyDir(m, d)
    ensures Inv(RemoveDir(m, d)) && SameContents(m, RemoveDir(m, d))
  {
    DirsOwned(m, RemoveDir(m, d));
  }

  lemma DirsOwned(m: Mmu, n: Mmu)
    requires Owned(m) && SlotsOk(m) && n.tables == m.tables
    requires forall c: nat, k: nat, x: nat :: Owns(n.dirs, c, k, x) <==> Owns(m.dirs, c, k, x)
    ensures Owned(n) && SlotsOk(n)
  {
    forall x | x in n.tables
      ensures exists c: nat, k: nat :: Owns(n.dirs, c, k, x)
    {
      var c: nat, k: nat :| Owns(m.dirs, c, k, x);
      assert Owns(n.dirs, c, k, x);
    }
  }
}
