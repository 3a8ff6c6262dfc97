/** The reference that copy-on-write has to match: every process owns a private map from pages to
    contents, and fork copies the whole map. */
module EagerCopy {
  import opened Basics
  import opened AddressSpaces
  import opened SpaceCopies
  import opened VirtualMemory
  import opened BuddyTiling
  import BuddyAllocator

  datatype Slot = Slot(dir: nat, entry: nat)

  type Spaces = map<nat, map<Slot, Page>>

  datatype Op =
    | OpFork(p: nat)
    | OpExit(p: nat)
    | OpExec(p: nat)
    | OpRead(p: nat, slot: Slot)
    | OpWrite(p: nat, slot: Slot, page: Page)
    | OpDemand(p: nat, slot: Slot, page: Page)

  datatype Out = Forked(child: nat) | Value(page: Page) | Done | Refused | NoMemory

  predicate IsUserPage(s: Slot) {
    s.dir < DIRS && s.entry < ENTRIES && UserSlot(s.dir, s.entry)
  }

  /** Operations that the kernel carries out in the given state. */
  predicate Applicable(e: Spaces, op: Op) {
    && op.p in e
    && match op
       case OpRead(p, s) => s in e[p]
       case OpWrite(p, s, _) => s in e[p]
       case OpDemand(p, s, _) => s !in e[p] && IsUserPage(s)
       case _ => true
  }

  /** One operation on private memories: fork copies eagerly, a store changes one process only. */
  predicate EagerStep(e: Spaces, op: Op, out: Out, e': Spaces) {
    if !Applicable(e, op) then out == Refused && e' == e
    else if out == NoMemory then (op.OpFork? || op.OpWrite? || op.OpDemand?) && e' == e
    else match op
         case OpFork(p) => out.Forked? && out.child !in e && e' == e[out.child := e[p]]
         case OpExit(p) => out == Done && e' == e - {p}
         case OpExec(p) => out == Done && e' == e[p := map[]]
         case OpRead(p, s) => out == Value(e[p][s]) && e' == e
         case OpWrite(p, s, page) => out == Done && e' == e[p := e[p][s := page]]
         case OpDemand(p, s, page) => out == Done && e' == e[p := e[p][s := page]]
  }

  ghost function Lookup(space: map<Slot, Page>, i: nat, j: nat): Option<Page> {
    if Slot(i, j) in space then Some(space[Slot(i, j)]) else None
  }

  /** The machine's page tables show every process exactly its private memory. */
  ghost predicate Refines(m: Mmu, e: Spaces) {
    && m.dirs.Keys == e.Keys
    && forall d: nat, i: nat, j: nat :: d in e ==> Content(m, d, i, j) == Lookup(e[d], i, j)
  }

  lemma RefinesFork(m0: Mmu, m: Mmu, e: Spaces, p: nat, c: nat)
    requires Refines(m0, e) && p in e && CloneOf(m0, m, p, c, true)
    ensures c !in e && Refines(m, e[c := e[p]])
  {
    hide Content;
  }

  lemma RefinesExit(m0: Mmu, m: Mmu, e: Spaces, p: nat)
    requires Refines(m0, e) && m.dirs == m0.dirs - {p} && OthersSame(m0, m, p)
    ensures Refines(m, e - {p})
  {
    hide Content;
  }

  lemma RefinesExec(m0: Mmu, m: Mmu, e: Spaces, p: nat)
    requires Inv(m) && Refines(m0, e) && p in e && Released(m0, m, p, DIRS)
    ensures Refines(m, e[p := map[]])
  {
    ReleasedKeeps(m0, m, p);
    forall i: nat, j: nat
      ensures Content(m, p, i, j) == None
    {
    }
  }

  lemma RefinesStore(m0: Mmu, m: Mmu, e: Spaces, p: nat, s: Slot, page: Page)
    requires Refines(m0, e) && p in e && m.dirs.Keys == m0.dirs.Keys
    requires SameElsewhere(m0, m, p, s.dir, s.entry) && Content(m, p, s.dir, s.entry) == Some(page)
    ensures Refines(m, e[p := e[p][s := page]])
  {
    hide Content;
    var e' := e[p := e[p][s := page]];
    forall d: nat, i: nat, j: nat | d in e'
      ensures Content(m, d, i, j) == Lookup(e'[d], i, j)
    {
      if d == p && Slot(i, j) == s {
        assert i == s.dir && j == s.entry;
      } else {
        assert Content(m, d, i, j) == Content(m0, d, i, j);
      }
    }
  }

  lemma RefinesApplicable(m: Mmu, e: Spaces, p: nat, s: Slot)
    requires Refines(m, e)
    ensures p in m.dirs <==> p in e
    ensures p in e ==> (Content(m, p, s.dir, s.entry).Some? <==> s in e[p])
    ensures p in e && s in e[p] ==> Content(m, p, s.dir, s.entry) == Some(e[p][s])
  {
    assert Slot(s.dir, s.entry) == s;
  }

  // ------------------------------------------------------------ memory

  /** Page tables and allocator of a machine. */
  datatype Machine = Machine(mmu: Mmu, tiling: Tiling, arena: Arena)

  ghost function Seen(vm: Vm): Machine
    reads vm, vm.alloc, vm.alloc.count
  {
    Machine(vm.State(), vm.alloc.t, vm.alloc.arena)
  }

  ghost function Free(k: Machine): nat {
    |FreePages(k.tiling, k.arena)|
  }

  /** Some free block is large enough for a kernel stack. */
  ghost predicate StackLeft(k: Machine) {
    exists b :: b in k.tiling && k.tiling[b].free && k.tiling[b].order >= STACK_ORDER
  }

  /** The pages that an operation takes: for a fork a directory, its first and last table, one table for
      each of the parent's others, and two pages of stack; for a store the copy of a shared page; for a
      demand fault the page and a missing table. */
  ghost function Need(m: Mmu, op: Op): nat {
    if op.p !in m.dirs || |m.dirs[op.p]| != DIRS then 0
    else match op
         case OpFork(p) => 5 + TablesIn(m.dirs[p], 1, LAST_DIR)
         case OpWrite(p, s, _) => if NeedsCopy(m, p, s.dir, s.entry) then 1 else 0
         case OpDemand(p, s, _) => if s.dir < DIRS && m.dirs[p][s.dir].None? then 2 else 1
         case _ => 0
  }

  ghost predicate Short(k: Machine, op: Op) {
    Free(k) < Need(k.mmu, op) || (op.OpFork? && !StackLeft(k))
  }

  /** Free pages, and the pages of directories, tables, user frames and kernel stacks. */
  ghost function Pages(k: Machine): nat {
    Free(k) + 3 * |k.mmu.dirs| + |k.mmu.tables| + |k.mmu.frames|
  }

  /** Memory runs out only when it is short. An operation takes exactly the pages it needs, exec and exit
      take none, and no page is lost; a load, and an operation that was refused, changes nothing. */
  ghost predicate MachineStep(k: Machine, op: Op, out: Out, k': Machine) {
    && (out != Refused ==> (out == NoMemory <==> Short(k, op)))
    && (out.Refused? || out.NoMemory? || out.Value? ==> k' == k)
    && (out.Forked? || (out.Done? && !op.OpExit? && !op.OpExec?) ==> Free(k') + Need(k.mmu, op) == Free(k))
    && (op.OpExit? || op.OpExec? ==>
          k'.mmu.tables.Keys <= k.mmu.tables.Keys && k'.mmu.frames.Keys <= k.mmu.frames.Keys && Free(k') >= Free(k))
    && k'.arena == k.arena && Pages(k') == Pages(k)
  }

  /** The lists of large blocks are empty if and only if no large block is free. */
  lemma StackLists(s: BuddyAllocator.Tables, k: Machine)
    requires BuddyAllocator.Describes(s, k.tiling, k.arena, -1)
    ensures |s.pageList| > k.arena.top
    ensures StackLeft(k) <==> !(forall i :: STACK_ORDER <= i <= k.arena.top ==> s.pageList[i] == [])
  {
    if StackLeft(k) {
      var b :| b in k.tiling && k.tiling[b].free && k.tiling[b].order >= STACK_ORDER;
      assert Fits(k.tiling, k.arena, b);
      assert BuddyAllocator.ListOk(s.pageList[k.tiling[b].order], k.tiling, k.tiling[b].order);
    }
    if i :| STACK_ORDER <= i <= k.arena.top && s.pageList[i] != [] {
      assert BuddyAllocator.ListOk(s.pageList[i], k.tiling, i);
      assert s.pageList[i][0] in s.pageList[i];
    }
  }

  /** Two states of one machine have the same number of pages in all. */
  lemma PagesKept(k: Machine, stacks: map<nat, nat>, k': Machine, stacks': map<nat, nat>, other: map<nat, nat>)
    requires Good(k.tiling, k.arena) && Good(k'.tiling, k'.arena) && k'.arena == k.arena
    requires Accounts(Live(k.tiling), k.mmu, stacks, other) && stacks.Keys == k.mmu.dirs.Keys
    requires Accounts(Live(k'.tiling), k'.mmu, stacks', other) && stacks'.Keys == k'.mmu.dirs.Keys
    ensures Pages(k') == Pages(k)
  {
    hide Tiles, Accounts, FreePages, Elsewhere;
    FreeIsRest(k.tiling, k.arena, k.mmu, stacks, other);
    FreeIsRest(k'.tiling, k'.arena, k'.mmu, stacks', other);
    assert |stacks| == |stacks.Keys| && |k.mmu.dirs| == |k.mmu.dirs.Keys|;
    assert |stacks'| == |stacks'.Keys| && |k'.mmu.dirs| == |k'.mmu.dirs.Keys|;
  }

  /** With fewer directories, tables and frames there are more free pages. */
  lemma FreeGrows(k: Machine, k': Machine)
    requires Pages(k') == Pages(k) && k'.mmu.dirs.Keys <= k.mmu.dirs.Keys
    requires k'.mmu.tables.Keys <= k.mmu.tables.Keys && k'.mmu.frames.Keys <= k.mmu.frames.Keys
    ensures Free(k') >= Free(k)
  {
    hide FreePages;
    SubsetSize(k'.mmu.dirs.Keys, k.mmu.dirs.Keys);
    SubsetSize(k'.mmu.tables.Keys, k.mmu.tables.Keys);
    SubsetSize(k'.mmu.frames.Keys, k.mmu.frames.Keys);
    assert |k.mmu.dirs| == |k.mmu.dirs.Keys| && |k'.mmu.dirs| == |k'.mmu.dirs.Keys|;
    assert |k.mmu.tables| == |k.mmu.tables.Keys| && |k'.mmu.tables| == |k'.mmu.tables.Keys|;
    assert |k.mmu.frames| == |k.mmu.frames.Keys| && |k'.mmu.frames| == |k'.mmu.frames.Keys|;
  }

  lemma FramesShrink(m0: Mmu, m: Mmu)
    requires Inv(m0) && Inv(m)
    requires forall t: nat, j: nat, f: nat :: Names(m.tables, t, j, f) ==> Names(m0.tables, t, j, f)
    ensures m.frames.Keys <= m0.frames.Keys
  {
    forall f | f in m.frames
      ensures f in m0.frames
    {
      var t, j := NamedBy(m, f);
      assert Names(m0.tables, t, j, f);
    }
  }

  lemma ExecShrinks(m0: Mmu, m: Mmu, p: nat)
    requires Inv(m0) && Inv(m) && Released(m0, m, p, DIRS)
    ensures m.tables.Keys <= m0.tables.Keys && m.frames.Keys <= m0.frames.Keys
  {
    forall t: nat, j: nat, f: nat | Names(m.tables, t, j, f)
      ensures Names(m0.tables, t, j, f)
    {
      ExecKeepsNames(m0, m, p, t, j, f);
    }
    FramesShrink(m0, m);
  }

  lemma OtherDirKept(m0: Mmu, m: Mmu, p: nat, e: nat, k: nat, t: nat)
    requires m.dirs - {p} == m0.dirs - {p} && e != p && Owns(m.dirs, e, k, t)
    ensures Owns(m0.dirs, e, k, t)
  {
    assert e in m.dirs - {p};
    assert (m.dirs - {p})[e] == (m0.dirs - {p})[e];
  }

  lemma ExecKeepsNames(m0: Mmu, m: Mmu, p: nat, t: nat, j: nat, f: nat)
    requires Inv(m0) && Inv(m) && Released(m0, m, p, DIRS) && Names(m.tables, t, j, f)
    ensures Names(m0.tables, t, j, f)
  {
    if m.tables[t] != m0.tables[t] {
      var e: nat, k: nat :| Owns(m.dirs, e, k, t);
      var i: nat :| Owns(m0.dirs, p, i, t);
      if e == p { UserContent(m, e, k, t, j); } else { OtherDirKept(m0, m, p, e, k, t); }
    }
  }

  // ------------------------------------------------------------ the machine against the reference

  /** Runs one operation; the outcome and the state match the eager reference, and the machine runs out of
      memory only if it is short of it. */
  method Step(vm: Vm, op: Op, ghost e: Spaces) returns (out: Out, ghost e': Spaces)
    requires vm.Valid() && Refines(vm.State(), e)
    modifies vm.Heap()
    ensures vm.Valid() && Refines(vm.State(), e')
    ensures EagerStep(e, op, out, e')
    ensures MachineStep(old(Seen(vm)), op, out, Seen(vm))
  {
    hide Homes, Inv, Accounts, FreePages, Refines, CloneOf, OthersSame, Released, SameElsewhere, BuddyAllocator.Describes, Content;
    e' := e;
    RefinesApplicable(vm.State(), e, op.p, Slot(0, 0));
    if op.p !in vm.dirs {
      return Refused, e;
    }
    match op {
      case OpFork(p) => out, e' := StepFork(vm, p, e);
      case OpExit(p) => out, e' := StepExit(vm, p, e);
      case OpExec(p) => out, e' := StepExec(vm, p, e);
      case OpRead(p, s) =>
        RefinesApplicable(vm.State(), e, p, s);
        var v := vm.Read(p, s.dir, s.entry);
        out := if v.Some? then Value(v.value) else Refused;
        NothingNeeded(Seen(vm), op);
      case OpWrite(p, s, page) => out, e' := StepWrite(vm, p, s, page, e);
      case OpDemand(p, s, page) => out, e' := StepDemand(vm, p, s, page, e);
    }
  }

  lemma NothingNeeded(k: Machine, op: Op)
    requires op.OpRead? || op.OpExit? || op.OpExec?
    ensures !Short(k, op)
  {
  }

  method StepExit(vm: Vm, p: nat, ghost e: Spaces) returns (out: Out, ghost e': Spaces)
    requires vm.Valid() && Refines(vm.State(), e) && p in vm.dirs && p in e
    modifies vm.Heap()
    ensures vm.Valid() && Refines(vm.State(), e')
    ensures EagerStep(e, OpExit(p), out, e')
    ensures MachineStep(old(Seen(vm)), OpExit(p), out, Seen(vm))
  {
    hide Homes, Inv, Accounts, FreePages, Refines, OthersSame, BuddyAllocator.Describes, Good;
    ghost var k, stacks := Seen(vm), vm.stacks;
    BuddyAllocator.DescribesSizes(vm.alloc.State(), vm.alloc.t, vm.alloc.arena);
    vm.Exit(p, true);
    RefinesExit(k.mmu, vm.State(), e, p);
    ExitShrinks(k.mmu, vm.State());
    BuddyAllocator.DescribesSizes(vm.alloc.State(), vm.alloc.t, vm.alloc.arena);
    PagesKept(k, stacks, Seen(vm), vm.stacks, vm.other);
    FreeGrows(k, Seen(vm));
    NothingNeeded(k, OpExit(p));
    out, e' := Done, e - {p};
  }

  method StepExec(vm: Vm, p: nat, ghost e: Spaces) returns (out: Out, ghost e': Spaces)
    requires vm.Valid() && Refines(vm.State(), e) && p in vm.dirs && p in e
    modifies vm.Heap()
    ensures vm.Valid() && Refines(vm.State(), e')
    ensures EagerStep(e, OpExec(p), out, e')
    ensures MachineStep(old(Seen(vm)), OpExec(p), out, Seen(vm))
  {
    hide Homes, Inv, Accounts, FreePages, Refines, Released, BuddyAllocator.Describes, Good;
    ghost var k, stacks := Seen(vm), vm.stacks;
    BuddyAllocator.DescribesSizes(vm.alloc.State(), vm.alloc.t, vm.alloc.arena);
    vm.FreeUserSpace(p);
    RefinesExec(k.mmu, vm.State(), e, p);
    ExecShrinks(k.mmu, vm.State(), p);
    BuddyAllocator.DescribesSizes(vm.alloc.State(), vm.alloc.t, vm.alloc.arena);
    PagesKept(k, stacks, Seen(vm), vm.stacks, vm.other);
    FreeGrows(k, Seen(vm));
    NothingNeeded(k, OpExec(p));
    out, e' := Done, e[p := map[]];
  }

  lemma ExitShrinks(m0: Mmu, m: Mmu)
    requires Inv(m0) && Inv(m)
    requires forall t :: t in m.tables ==> t in m0.tables && m.tables[t] == m0.tables[t]
    ensures m.tables.Keys <= m0.tables.Keys && m.frames.Keys <= m0.frames.Keys
  {
    FramesShrink(m0, m);
  }

  method FreeNow(vm: Vm) returns (n: nat)
    requires vm.Valid()
    ensures n == vm.FreeCount()
  {
    hide Homes, Inv, Accounts, FreePages, BuddyAllocator.Describes;
    var bytes := vm.alloc.FreeMem();
    n := bytes / BuddyAllocator.PAGE_SIZE;
  }

  method StepFork(vm: Vm, p: nat, ghost e: Spaces) returns (out: Out, ghost e': Spaces)
    requires vm.Valid() && Refines(vm.State(), e) && p in vm.dirs && p in e
    modifies vm.Heap()
    ensures vm.Valid() && Refines(vm.State(), e')
    ensures EagerStep(e, OpFork(p), out, e')
    ensures MachineStep(old(Seen(vm)), OpFork(p), out, Seen(vm))
  {
    hide Homes, Inv, Accounts, FreePages, Refines, CloneOf, BuddyAllocator.Describes, Good, StackLeft;
    ghost var k, stacks := Seen(vm), vm.stacks;
    BuddyAllocator.DescribesSizes(vm.alloc.State(), vm.alloc.t, vm.alloc.arena);
    StackLists(vm.alloc.State(), k);
    var free := FreeNow(vm);
    if free < 5 + TablesIn(vm.dirs[p], 1, LAST_DIR) {
      return NoMemory, e;
    }
    var c := vm.Fork(p, true);
    if c.None? {
      return NoMemory, e;
    }
    out, e' := Forked(c.value), e[c.value := e[p]];
    RefinesFork(k.mmu, vm.State(), e, p, c.value);
    BuddyAllocator.DescribesSizes(vm.alloc.State(), vm.alloc.t, vm.alloc.arena);
    PagesKept(k, stacks, Seen(vm), vm.stacks, vm.other);
    ForkTakes(k, p, c.value, Seen(vm));
  }

  lemma ForkTakes(k: Machine, p: nat, c: nat, k': Machine)
    requires p in k.mmu.dirs && |k.mmu.dirs[p]| == DIRS && StackLeft(k)
    requires Free(k') + 5 + TablesIn(k.mmu.dirs[p], 1, LAST_DIR) == Free(k)
    requires k'.arena == k.arena && Pages(k') == Pages(k)
    ensures MachineStep(k, OpFork(p), Forked(c), k')
  {
    hide StackLeft, Free, TablesIn, Pages;
  }

  method StepWrite(vm: Vm, p: nat, s: Slot, page: Page, ghost e: Spaces) returns (out: Out, ghost e': Spaces)
    requires vm.Valid() && Refines(vm.State(), e) && p in vm.dirs && p in e
    modifies vm.Heap()
    ensures vm.Valid() && Refines(vm.State(), e')
    ensures EagerStep(e, OpWrite(p, s, page), out, e')
    ensures MachineStep(old(Seen(vm)), OpWrite(p, s, page), out, Seen(vm))
  {
    hide Homes, Inv, Accounts, FreePages, Refines, SameElsewhere, Content, BuddyAllocator.Describes, Good;
    ghost var k, s0, stacks := Seen(vm), vm.alloc.State(), vm.stacks;
    RefinesApplicable(vm.State(), e, p, s);
    var v := vm.Read(p, s.dir, s.entry);
    if v.None? {
      return Refused, e;
    }
    ghost var m0 := vm.State();
    MappedFacts(m0, p, s.dir, s.entry);
    var t := vm.dirs[p][s.dir].value;
    var entry := vm.tables[t][s.entry];
    var free := FreeNow(vm);
    if free == 0 && !entry.writable && vm.alloc.count[entry.frame] > 1 {
      return NoMemory, e;
    }
    vm.Write(p, s.dir, s.entry, page);
    out, e' := Done, e[p := e[p][s := page]];
    RefinesStore(m0, vm.State(), e, p, s, page);
    Stored(k, s0, stacks, Seen(vm), vm.alloc.State(), vm.other, OpWrite(p, s, page));
  }

  method StepDemand(vm: Vm, p: nat, s: Slot, page: Page, ghost e: Spaces) returns (out: Out, ghost e': Spaces)
    requires vm.Valid() && Refines(vm.State(), e) && p in vm.dirs && p in e
    modifies vm.Heap()
    ensures vm.Valid() && Refines(vm.State(), e')
    ensures EagerStep(e, OpDemand(p, s, page), out, e')
    ensures MachineStep(old(Seen(vm)), OpDemand(p, s, page), out, Seen(vm))
  {
    hide Homes, Inv, Accounts, FreePages, Refines, SameElsewhere, Content, BuddyAllocator.Describes, Good, Complete, Live;
    CompleteFacts(vm.dirs, vm.stacks, p);
    ghost var k, s0, stacks := Seen(vm), vm.alloc.State(), vm.stacks;
    RefinesApplicable(vm.State(), e, p, s);
    var v := vm.Read(p, s.dir, s.entry);
    if v.Some? || !IsUserPage(s) {
      return Refused, e;
    }
    var free := FreeNow(vm);
    if free < (if vm.dirs[p][s.dir].None? then 2 else 1) {
      return NoMemory, e;
    }
    vm.Demand(p, s.dir, s.entry, page);
    out, e' := Done, e[p := e[p][s := page]];
    RefinesStore(k.mmu, vm.State(), e, p, s, page);
    Stored(k, s0, stacks, Seen(vm), vm.alloc.State(), vm.other, OpDemand(p, s, page));
  }

  /** What a store took is accounted for. */
  lemma Stored(k: Machine, s: BuddyAllocator.Tables, stacks: map<nat, nat>,
               k': Machine, s': BuddyAllocator.Tables, other: map<nat, nat>, op: Op)
    requires op.OpWrite? || op.OpDemand?
    requires BuddyAllocator.Describes(s, k.tiling, k.arena, -1) && BuddyAllocator.Describes(s', k'.tiling, k'.arena, -1)
    requires Accounts(Live(k.tiling), k.mmu, stacks, other) && stacks.Keys == k.mmu.dirs.Keys
    requires Accounts(Live(k'.tiling), k'.mmu, stacks, other) && k'.mmu.dirs.Keys == k.mmu.dirs.Keys
    requires k'.arena == k.arena && Free(k') + Need(k.mmu, op) == Free(k)
    ensures MachineStep(k, op, Done, k')
  {
    hide BuddyAllocator.Describes, Good, Accounts, Live, Free, Need, Pages;
    BuddyAllocator.DescribesSizes(s, k.tiling, k.arena);
    BuddyAllocator.DescribesSizes(s', k'.tiling, k'.arena);
    PagesKept(k, stacks, k', stacks, other);
  }

  /** A run of the eager reference and one of the machine, with the same outcomes. */
  ghost predicate EagerRun(es: seq<Spaces>, ks: seq<Machine>, ops: seq<Op>, outs: seq<Out>) {
    && |es| == |ks| == |ops| + 1 && |outs| == |ops|
    && (forall k :: 0 <= k <= |ops| ==> Refines(ks[k].mmu, es[k]))
    && forall k, l :: 0 <= k < |ops| && l == k + 1 ==>
         EagerStep(es[k], ops[k], outs[k], es[l]) && MachineStep(ks[k], ops[k], outs[k], ks[l])
  }

  /** Every run of forks, stores, loads, faults, execs and exits over shared frames answers exactly as
      a run in which fork copied all memory, and each operation that finds the memory it needs is carried
      out. */
  method Run(vm: Vm, ops: seq<Op>, ghost e: Spaces)
    returns (outs: seq<Out>, ghost es: seq<Spaces>, ghost ks: seq<Machine>)
    requires vm.Valid() && Refines(vm.State(), e)
    modifies vm.Heap()
    ensures vm.Valid()
    ensures EagerRun(es, ks, ops, outs) && es[0] == e && ks[0] == old(Seen(vm)) && ks[|ops|] == Seen(vm)
  {
    hide Homes, Inv, Accounts, Refines, EagerStep, MachineStep, BuddyAllocator.Describes;
    outs, es, ks := [], [e], [Seen(vm)];
    var k := 0;
    while k < |ops|
      invariant 0 <= k <= |ops| && vm.Valid()
      invariant EagerRun(es, ks, ops[..k], outs) && es[0] == e && ks[0] == old(Seen(vm)) && ks[k] == Seen(vm)
    {
      var out, next := Step(vm, ops[k], es[k]);
      outs, es, ks := outs + [out], es + [next], ks + [Seen(vm)];
      assert ops[..k + 1] == ops[..k] + [ops[k]];
      k := k + 1;
    }
    assert ops[..k] == ops;
  }

  /** Over a whole run no page is lost: free pages and pages in use add up to what they were at the start. */
  lemma {:induction false} RunKeepsPages(es: seq<Spaces>, ks: seq<Machine>, ops: seq<Op>, outs: seq<Out>, n: nat)
    requires EagerRun(es, ks, ops, outs) && n <= |ops|
    ensures Pages(ks[n]) == Pages(ks[0])
    decreases n
  {
    hide Pages;
    if n > 0 {
      RunKeepsPages(es, ks, ops, outs, n - 1);
      assert MachineStep(ks[n - 1], ops[n - 1], outs[n - 1], ks[n]);
    }
  }

  /** The address space of the first process, on a kernel stack already taken. */
  method FirstProcess(vm: Vm, low: seq<Entry>, stack: nat, ghost rest: map<nat, nat>) returns (c: nat)
    requires vm.Core() && vm.FreeCount() >= 3 && vm.dirs == map[] && vm.stacks == map[]
    requires stack !in rest && vm.other == rest[stack := STACK_ORDER]
    requires |low| == FIRST_USER && forall j :: 0 <= j < |low| ==> !low[j].User?
    modifies vm.Heap()
    ensures vm.Valid() && vm.other == rest && Refines(vm.State(), map[c := map[]])
    ensures LowOf(vm.dirs, vm.tables, c) == low
  {
    hide Inv, Accounts, FreePages, Fresh, Refines, Live, StackMapped, LowOf, BuddyAllocator.Describes;
    ghost var m0 := vm.State();
    var t0, t1;
    c, t0, t1 := vm.NewSpace(low, stack);
    FirstSpace(m0, vm.State(), c, t0, t1);
    StackMoves(Live(vm.alloc.t), vm.State(), vm.stacks, rest, c, stack);
    vm.stacks := vm.stacks[c := stack];
    vm.other := rest;
  }

  /** The machine right after boot: one process, which has no user page yet. */
  method Boot(alloc: BuddyAllocator.PageAllocator, low: seq<Entry>) returns (vm: Vm, r: Option<nat>)
    requires alloc.Valid() && alloc.arena.top >= STACK_ORDER
    requires forall p :: 0 <= p < alloc.count.Length ==> alloc.count[p] == 0
    requires |low| == FIRST_USER && forall j :: 0 <= j < |low| ==> !low[j].User?
    requires |FreePages(alloc.t, alloc.arena)| >= 5
    modifies alloc, alloc.order, alloc.onList, alloc.count
    ensures fresh(vm) && vm.alloc == alloc
    ensures r.Some? ==> vm.Valid() && Refines(vm.State(), map[r.value := map[]])
    ensures r.Some? ==> LowOf(vm.dirs, vm.tables, r.value) == low
    ensures r.None? ==> vm.Valid() && Refines(vm.State(), map[])
    ensures r.None? <==> forall i :: STACK_ORDER <= i <= alloc.arena.top ==> old(alloc.pageList)[i] == []
  {
    hide Homes, Inv, Accounts, FreePages, Fresh, BuddyAllocator.Describes;
    vm := new Vm(alloc);
    var s := vm.TakeStack();
    if s.None? {
      return vm, None;
    }
    var c := FirstProcess(vm, low, s.value, Live(old(alloc.t)));
    r := Some(c);
  }

  lemma FirstSpace(m0: Mmu, m: Mmu, c: nat, t0: nat, t1: nat)
    requires m0.dirs == map[] && Fresh(m0, m, c, t0, t1)
    ensures m.dirs.Keys == {c} && |m.dirs[c]| == DIRS && m.dirs[c][0].Some? && m.dirs[c][LAST_DIR].Some?
    ensures Refines(m, map[c := map[]])
  {
    assert m.dirs.Keys - {c} == (m.dirs - {c}).Keys == {};
    assert m.dirs.Keys == (m.dirs.Keys - {c}) + {c};
    forall i: nat, j: nat
      ensures Content(m, c, i, j) == None
    {
      assert Content(m0, c, i, j) == None;
    }
  }
}
