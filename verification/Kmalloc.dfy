/** The size-class allocator of memory_manager/kmalloc.c over sixteen pools, and its aligned variant,
    which remembers the original address of every aligned one in a hash table. */
module Kmalloc {
  import opened Basics
  import opened Bits
  import opened Pools
  import Hashtable

  /** Number of pools in the source. */
  const POOL_NUM: nat := 16

  function ClassSize(i: nat): nat {
    Pow2(2 + i)
  }

  ghost predicate LaidOut(p: Pool, i: nat, start: nat, span: nat) {
    && p.base == start + Times(i, span)
    && p.blockSize == ClassSize(i)
    && Times(p.num, HEADER + p.blockSize) <= span
  }

  method MakePools(start: nat, span: nat, n: nat) returns (ps: seq<Pool>)
    requires forall i :: 0 <= i < n ==> span >= HEADER + ClassSize(i)
    ensures |ps| == n && fresh(ps)
    ensures forall j, k :: 0 <= j < k < n ==> ps[j] != ps[k]
    ensures forall j :: 0 <= j < n ==> LaidOut(ps[j], j, start, span)
    ensures forall j :: 0 <= j < n ==> ps[j].Valid() && ps[j].Used() == {}
  {
    hide Pow2, Times, Ok, Outside;
    ps := [];
    var i, memAddr := 0, start;
    TimesMore(0, span);
    while i < n
      invariant 0 <= i <= n && |ps| == i && memAddr == start + Times(i, span)
      invariant forall j :: 0 <= j < i ==> fresh(ps[j]) && ps[j].Valid() && ps[j].Used() == {}
      invariant forall j, k :: 0 <= j < k < i ==> ps[j] != ps[k]
      invariant forall j :: 0 <= j < i ==> LaidOut(ps[j], j, start, span)
    {
      TimesMore(i, span);
      assert span >= HEADER + ClassSize(i);
      var p := new Pool(Pow2(2 + i), memAddr, span);
      ps := ps + [p];
      memAddr := memAddr + span;
      i := i + 1;
    }
  }

  class Heap {
    const start: nat
    const span: nat
    const pools: seq<Pool>

    ghost predicate Laid(i: nat)
      requires i < |pools|
    {
      LaidOut(pools[i], i, start, span)
    }

    ghost predicate Valid()
      reads pools
    {
      && (forall i, j :: 0 <= i < j < |pools| ==> pools[i] != pools[j])
      && (forall i :: 0 <= i < |pools| ==> Laid(i))
      && forall i :: 0 <= i < |pools| ==> pools[i].Valid()
    }

    /** The block at user address a was handed out by pool i. */
    ghost predicate Live(a: nat, i: nat)
      reads pools
    {
      i < |pools| && a >= HEADER && a - HEADER in pools[i].Used()
    }

    /** init_kmallocs: equal stretches of memory, block sizes 4, 8, 16, and so on. */
    constructor (start: nat, span: nat, n: nat)
      requires forall i :: 0 <= i < n ==> span >= HEADER + ClassSize(i)
      ensures Valid() && this.start == start && this.span == span && |pools| == n && fresh(pools)
      ensures forall a: nat, i: nat :: !Live(a, i)
    {
      hide Pow2, Times, Ok, Outside;
      this.start, this.span := start, span;
      var ps := MakePools(start, span, n);
      pools := ps;
    }

    /** kmalloc: a block of the smallest class that is large enough. */
    method Alloc(size: nat) returns (r: Option<nat>, i: nat)
      requires Valid()
      modifies pools
      ensures Valid() && i <= |pools|
      ensures forall j :: 0 <= j < i ==> ClassSize(j) < size
      ensures i < |pools| ==> size <= ClassSize(i)
      ensures r.None? <==> i == |pools| || old(pools[i].list) == []
      ensures r.None? ==> forall j :: 0 <= j < |pools| ==> pools[j].list == old(pools[j].list)
      ensures r.Some? ==>
        && r.value >= HEADER && !old(Live(r.value, i))
        && old(pools[i].list) == [r.value - HEADER] + pools[i].list
      ensures forall b: nat, j: nat :: Live(b, j) <==> old(Live(b, j)) || (r == Some(b) && j == i)
      ensures r.Some? ==> forall j :: 0 <= j < |pools| && j != i ==> pools[j].list == old(pools[j].list)
    {
      hide Pow2, Times, Ok, Outside;
      i := 0;
      while i < |pools| && size > Pow2(2 + i)
        invariant 0 <= i <= |pools|
        invariant forall j :: 0 <= j < i ==> ClassSize(j) < size
      {
        i := i + 1;
      }
      if i == |pools| {
        return None, i;
      }
      ghost var l := pools[i].list;
      r := pools[i].Alloc();
      if r.Some? {
        assert l == [l[0]] + l[1..];
      }
    }

    /** kfree: the pool is found from the address alone, and is the one that handed the block out. */
    method Free(address: nat, ghost owner: nat)
      requires Valid() && Live(address, owner)
      modifies pools
      ensures Valid()
      ensures pools[owner].list == [address - HEADER] + old(pools[owner].list)
      ensures forall b: nat, j: nat :: Live(b, j) <==> old(Live(b, j)) && !(b == address && j == owner)
      ensures forall j :: 0 <= j < |pools| && j != owner ==> pools[j].list == old(pools[j].list)
    {
      hide Pow2, Times, Ok, Outside;
      LiveInside(this, address, owner);
      var poolIndex := 0;
      while Times(poolIndex + 1, span) < address - start
        invariant 0 <= poolIndex <= owner
        modifies {}
        decreases owner - poolIndex
      {
        OwnerNotBelow(span, poolIndex, owner, address - start);
        poolIndex := poolIndex + 1;
      }
      OwnerNotAbove(span, poolIndex, owner, address - start);
      pools[poolIndex].Free(address);
    }
  }

  /** A live block lies inside its pool's stretch: behind its header, and all of it before the end. */
  lemma LiveInside(h: Heap, a: nat, i: nat)
    requires h.Valid() && h.Live(a, i)
    ensures h.start + Times(i, h.span) + HEADER <= a
    ensures a + ClassSize(i) <= h.start + Times(i + 1, h.span)
  {
    hide Pow2, Times, Ok;
    var p := h.pools[i];
    assert h.Laid(i);
    HeadsInside(p.base, HEADER + p.blockSize, p.num, a - HEADER);
    TimesMore(i, h.span);
  }

  lemma OwnerNotBelow(span: nat, k: nat, owner: nat, off: nat)
    requires k <= owner && Times(k + 1, span) < off <= Times(owner + 1, span)
    ensures k + 1 <= owner
  {
  }

  lemma OwnerNotAbove(span: nat, k: nat, owner: nat, off: nat)
    requires k <= owner && off <= Times(k + 1, span) && Times(owner, span) < off
    ensures k == owner
  {
    if k < owner { TimesMonotone(k + 1, owner, span); }
  }

  lemma OneOwner(h: Heap, a: nat, i: nat, j: nat)
    requires h.Valid() && h.Live(a, i) && h.Live(a, j)
    ensures i == j
  {
    hide Pow2, Times, Ok;
    LiveInside(h, a, i);
    LiveInside(h, a, j);
    if i < j { TimesMonotone(i + 1, j, h.span); }
    if j < i { TimesMonotone(j + 1, i, h.span); }
  }

  /** Two live blocks, of one pool or of two, never overlap. */
  lemma BlocksApart(h: Heap, a: nat, i: nat, b: nat, j: nat)
    requires h.Valid() && h.Live(a, i) && h.Live(b, j) && a < b
    ensures a + ClassSize(i) + HEADER <= b
  {
    hide Pow2, Times, Ok;
    LiveInside(h, a, i);
    LiveInside(h, b, j);
    if i == j {
      var p := h.pools[i];
      assert h.Laid(i);
      HeadsApart(p.base, HEADER + p.blockSize, p.num, a - HEADER, b - HEADER);
    } else if i < j {
      TimesMonotone(i + 1, j, h.span);
    } else {
      TimesMonotone(j + 1, i, h.span);
    }
  }

  // ------------------------------------------------------------ aligned blocks

  /** ALIGNED_TO_OFFSET: the next multiple, always beyond the address itself. */
  function AlignUp(a: nat, alignment: nat): (r: nat)
    requires alignment > 0
    ensures a < r <= a + alignment
  {
    a + alignment - a % alignment
  }

  lemma AlignUpIsMultiple(a: nat, alignment: nat)
    requires alignment > 0
    ensures AlignUp(a, alignment) % alignment == 0
  {
    var q := a / alignment;
    assert AlignUp(a, alignment) == alignment * (q + 1);
    MulMod(alignment, q + 1);
  }

  class AlignedHeap {
    const heap: Heap
    const table: Hashtable.Table<nat>
    ghost var origin: map<nat, nat>   // aligned address to the address kmalloc returned
    ghost var owner: map<nat, nat>    // aligned address to the pool of its block

    ghost predicate Inside(k: nat)
      reads this, heap.pools
      requires k in origin && k in owner
    {
      && heap.Live(origin[k], owner[k])
      && origin[k] < k <= origin[k] + ClassSize(owner[k])
    }

    ghost predicate Valid()
      reads this, heap.pools, table
    {
      && heap.Valid() && table.Valid()
      && origin.Keys == owner.Keys
      && (forall k :: k in origin ==> Inside(k))
      && (forall k, l :: k in origin && l in origin && k != l ==> origin[k] != origin[l])
      && Hashtable.Maps(table.bucket, origin)
    }

    constructor (heap: Heap, mapSize: nat)
      requires heap.Valid() && mapSize > 0
      ensures Valid() && this.heap == heap && fresh(table) && origin == map[]
    {
      this.heap := heap;
      table := new Hashtable.Table<nat>(mapSize);
      origin, owner := map[], map[];
      new;
      Hashtable.MapsNothing<nat>(table.bucket);
    }

    /** aligned_kmalloc: a larger block, and an aligned address inside it with room for size bytes. */
    method Alloc(size: nat, alignment: nat) returns (r: Option<nat>, ghost a: nat, ghost i: nat)
      requires Valid() && alignment > 0
      modifies this, heap.pools, table
      ensures Valid()
      ensures SmallestClass(i, size + alignment)
      ensures r.None? <==> i == |heap.pools| || old(heap.pools[i].list) == []
      ensures r.None? ==> origin == old(origin) && owner == old(owner) && SameLists(|heap.pools|)
      ensures r.Some? ==>
        && r.value !in old(origin) && r.value !in old(owner)
        && origin == old(origin)[r.value := a] && owner == old(owner)[r.value := i]
        && r.value % alignment == 0 && i < |heap.pools|
        && a < r.value && r.value + size <= a + ClassSize(i)
        && !old(heap.Live(a, i)) && a >= HEADER
        && old(heap.pools[i].list) == [a - HEADER] + heap.pools[i].list
        && SameLists(i)
    {
      hide Valid, Inside, ClassSize;
      var block, c := TakeBlock(size + alignment);
      if block.None? {
        return None, 0, c;
      }
      var p := AlignUp(block.value, alignment);
      AlignUpIsMultiple(block.value, alignment);
      Record(p, block.value, c);
      r, a, i := Some(p), block.value, c;
    }

    /** The block of an aligned allocation; no recorded address has it. */
    method TakeBlock(n: nat) returns (r: Option<nat>, i: nat)
      requires Valid()
      modifies heap.pools
      ensures Valid() && SmallestClass(i, n)
      ensures r.None? <==> i == |heap.pools| || old(heap.pools[i].list) == []
      ensures r.None? ==> SameLists(|heap.pools|)
      ensures r.Some? ==>
        && i < |heap.pools| && r.value >= HEADER && heap.Live(r.value, i) && !old(heap.Live(r.value, i))
        && old(heap.pools[i].list) == [r.value - HEADER] + heap.pools[i].list && SameLists(i)
        && forall k :: k in origin ==> origin[k] != r.value
    {
      hide Pow2, Times, Ok, Outside, LaidOut, ClassSize, Hashtable.Stack, Hashtable.Maps, Hashtable.Placed, Hashtable.Total;
      r, i := heap.Alloc(n);
      if r.Some? {
        NewOrigin(r.value, i);
      }
    }

    /** The first pool whose blocks hold n bytes, or none. */
    ghost predicate SmallestClass(i: nat, n: nat) {
      && i <= |heap.pools| && (forall j :: 0 <= j < i ==> ClassSize(j) < n)
      && (i < |heap.pools| ==> n <= ClassSize(i))
    }

    /** Every pool but one has the free list it had. */
    twostate predicate SameLists(i: nat)
      reads heap.pools
    {
      forall j :: 0 <= j < |heap.pools| && j != i ==> heap.pools[j].list == old(heap.pools[j].list)
    }

    method Record(p: nat, a: nat, ghost i: nat)
      requires Valid() && heap.Live(a, i) && a < p <= a + ClassSize(i)
      requires forall k :: k in origin ==> origin[k] != a
      modifies this, table
      ensures Valid() && p !in old(origin) && p !in old(owner)
      ensures origin == old(origin)[p := a] && owner == old(owner)[p := i]
    {
      hide Pow2, Times, Ok, Outside, Hashtable.Maps, Hashtable.Stack, Hashtable.Kept, Hashtable.Placed, Hashtable.Total;
      hide LaidOut, Heap.Live, ClassSize, Hashtable.Overloaded;
      NewKey(p, a, i);
      ghost var b, e := table.bucket, table.elements;
      table.Put(p, a);
      Hashtable.MapsPut(b, e, origin, p, a, table.bucket);
      origin := origin[p := a];
      owner := owner[p := i];
    }

    /** aligned_kfree: the original address comes out of the table and its block goes back to its pool. */
    method Free(p: nat)
      requires Valid() && p in origin
      modifies this, heap.pools, table
      ensures Valid()
      ensures origin == old(origin) - {p} && owner == old(owner) - {p}
      ensures var i := old(owner[p]);
        && i < |heap.pools| && !heap.Live(old(origin[p]), i)
        && old(origin[p]) >= HEADER && heap.pools[i].list == [old(origin[p]) - HEADER] + old(heap.pools[owner[p]].list)
        && SameLists(i)
    {
      hide Valid, Inside, ClassSize;
      var a := Forget(p);
      ReturnBlock(a, old(owner[p]));
    }

    method ReturnBlock(a: nat, ghost i: nat)
      requires Valid() && heap.Live(a, i) && forall k :: k in origin ==> origin[k] != a
      modifies heap.pools
      ensures Valid()
      ensures i < |heap.pools| && !heap.Live(a, i) && a >= HEADER
      ensures heap.pools[i].list == [a - HEADER] + old(heap.pools[i].list) && SameLists(i)
    {
      hide Pow2, Times, Ok, Outside, LaidOut, ClassSize, Hashtable.Maps, Hashtable.Stack, Hashtable.Placed, Hashtable.Total;
      heap.Free(a, i);
    }

    method Forget(p: nat) returns (a: nat)
      requires Valid() && p in origin
      modifies this, table
      ensures Valid() && p in old(owner) && a == old(origin[p]) && heap.Live(a, old(owner[p]))
      ensures origin == old(origin) - {p} && owner == old(owner) - {p}
      ensures forall k :: k in origin ==> origin[k] != a
    {
      hide Pow2, Times, Ok, Outside, Hashtable.Maps, LaidOut, Heap.Live;
      hide Hashtable.Stack, Hashtable.Placed, Hashtable.Total, Hashtable.Overloaded;
      ghost var b := table.bucket;
      Hashtable.MapsAt(b, origin, p);
      assert Inside(p);
      var r := table.Search(p, true);
      Hashtable.MapsTake(b, origin, p, table.bucket);
      a := r.value;
      origin := origin - {p};
      owner := owner - {p};
    }

    /** Freeing what was just taken leaves every pool, and the table's contents, as they were; something is
        taken if and only if the pool of the smallest sufficient class has a block. */
    method RoundTrip(size: nat, alignment: nat) returns (r: Option<nat>, ghost i: nat)
      requires Valid() && alignment > 0
      modifies this, heap.pools, table
      ensures Valid() && SameLists(|heap.pools|)
      ensures origin == old(origin) && owner == old(owner)
      ensures SmallestClass(i, size + alignment)
      ensures r.None? <==> i == |heap.pools| || old(heap.pools[i].list) == []
      ensures r.Some? ==> r.value % alignment == 0 && r.value !in old(origin)
    {
      hide Valid, Inside, SmallestClass;
      ghost var a;
      r, a, i := Alloc(size, alignment);
      ClassInRange(i, size + alignment);
      if r.Some? {
        Free(r.value);
        assert origin == old(origin) && owner == old(owner);
      }
    }

    lemma ClassInRange(i: nat, n: nat)
      requires SmallestClass(i, n)
      ensures i <= |heap.pools|
    {
    }

    /** A block just taken is the block of no recorded address. */
    lemma NewOrigin(a: nat, i: nat)
      requires heap.Valid() && heap.Live(a, i) && origin.Keys == owner.Keys
      requires forall k :: k in origin ==> heap.Live(origin[k], owner[k]) && !(origin[k] == a && owner[k] == i)
      ensures forall k :: k in origin ==> origin[k] != a
    {
      hide Pow2, Times, Ok, Outside, LaidOut, Heap.Live;
      forall k | k in origin
        ensures origin[k] != a
      {
        if origin[k] == a { OneOwner(heap, a, i, owner[k]); }
      }
    }

    /** No live aligned address coincides with one inside a block just taken. */
    lemma NewKey(p: nat, a: nat, i: nat)
      requires heap.Valid() && heap.Live(a, i) && a < p <= a + ClassSize(i)
      requires origin.Keys == owner.Keys && forall k :: k in origin ==> Inside(k)
      requires forall k :: k in origin ==> origin[k] != a
      ensures p !in origin
    {
      hide Pow2, Times, Ok, Outside;
      if p in origin {
        var b, j := origin[p], owner[p];
        assert Inside(p);
        if a < b { BlocksApart(heap, a, i, b, j); } else { BlocksApart(heap, b, j, a, i); }
      }
    }
  }
}
