/** One pool of equal blocks (memory_manager/fixed_size.c): an intrusive list of free blocks that
    starts out circular, so that its end is marked by the counter and not by a null link. */
module Pools {
  import opened Basics
  import opened Bits

  /** Bytes of the two links in front of every block. */
  const HEADER: nat := 8

  /** The header of block k, blocks being stride bytes apart. */
  ghost function HeadAt(base: nat, stride: nat, k: nat): nat {
    base + Times(k, stride)
  }

  /** The header addresses of n blocks. */
  ghost function Heads(base: nat, stride: nat, n: nat): set<nat> {
    if n == 0 then {} else Heads(base, stride, n - 1) + {HeadAt(base, stride, n - 1)}
  }

  lemma {:induction false} HeadIn(base: nat, stride: nat, n: nat, k: nat)
    requires k < n
    ensures HeadAt(base, stride, k) in Heads(base, stride, n)
    decreases n
  {
    if k < n - 1 { HeadIn(base, stride, n - 1, k); }
  }

  lemma {:induction false} HeadNumber(base: nat, stride: nat, n: nat, a: nat) returns (k: nat)
    requires a in Heads(base, stride, n)
    ensures k < n && a == HeadAt(base, stride, k)
    decreases n
  {
    if a in Heads(base, stride, n - 1) {
      k := HeadNumber(base, stride, n - 1, a);
    } else {
      k := n - 1;
    }
  }

  /** From every block of the list the link leads to the next one. */
  ghost predicate Linked(next: map<nat, nat>, s: seq<nat>) {
    && (forall i :: 0 <= i < |s| ==> s[i] in next)
    && forall i, j :: 0 <= i && j == i + 1 && j < |s| ==> next[s[i]] == s[j]
  }

  lemma {:induction false} Spaced(stride: nat, j: nat, k: nat)
    requires j < k
    ensures Times(j, stride) + stride <= Times(k, stride)
  {
    TimesMonotone(j + 1, k, stride);
  }

  /** Distinct blocks of a pool do not overlap. */
  lemma HeadsApart(base: nat, stride: nat, n: nat, a: nat, b: nat)
    requires a in Heads(base, stride, n) && b in Heads(base, stride, n) && a < b
    ensures a + stride <= b
  {
    var j := HeadNumber(base, stride, n, a);
    var k := HeadNumber(base, stride, n, b);
    if k <= j { TimesMonotone(k, j, stride); } else { Spaced(stride, j, k); }
  }

  lemma HeadsInside(base: nat, stride: nat, n: nat, a: nat)
    requires a in Heads(base, stride, n)
    ensures base <= a && a + stride <= base + Times(n, stride)
  {
    var k := HeadNumber(base, stride, n, a);
    TimesMonotone(k + 1, n, stride);
  }

  /** The first `free` blocks reached from `first` are exactly the distinct free blocks of the list;
      every link, even a stale one, points at a header of the pool. */
  ghost predicate Ok(heads: set<nat>, list: seq<nat>, first: nat, free: nat, next: map<nat, nat>, previous: map<nat, nat>) {
    && free == |list| && NoDup(list) && Linked(next, list)
    && (list != [] ==> first == list[0])
    && first in heads
    && next.Keys == previous.Keys == heads
    && next.Values <= heads
  }

  ghost function Outside(heads: set<nat>, list: seq<nat>): set<nat> {
    set a | a in heads && a !in list
  }

  lemma Popped(heads: set<nat>, list: seq<nat>, first: nat, free: nat, next: map<nat, nat>, previous: map<nat, nat>)
    requires Ok(heads, list, first, free, next, previous)
    ensures free == |list|
    ensures list != [] ==>
              && first in next && list[0] == first && next[first] in previous
              && Ok(heads, list[1..], next[first], free - 1, next, previous[next[first] := 0])
              && Outside(heads, list[1..]) == Outside(heads, list) + {first} && first !in Outside(heads, list)
  {
    if list != [] {
      assert first in next && next[first] in next.Values;
      assert list == [list[0]] + list[1..];
      assert list[0] !in list[1..];
    }
  }

  lemma Pushed(heads: set<nat>, list: seq<nat>, first: nat, free: nat, next: map<nat, nat>, previous: map<nat, nat>, a: nat)
    requires Ok(heads, list, first, free, next, previous) && a in Outside(heads, list)
    ensures first in previous && a in next
    ensures Ok(heads, [a] + list, a, free + 1, next[a := first], previous[a := 0][first := a])
    ensures Outside(heads, [a] + list) == Outside(heads, list) - {a}
  {
    var n := next[a := first];
    forall v | v in n.Values
      ensures v in heads
    {
      var k :| k in n && n[k] == v;
      if k != a { assert next[k] in next.Values; }
    }
  }

  class Pool {
    const base: nat
    const blockSize: nat
    const num: nat
    var first: nat
    var free: nat
    var next: map<nat, nat>
    var previous: map<nat, nat>
    ghost var list: seq<nat>

    ghost function Headers(): set<nat> {
      Heads(base, HEADER + blockSize, num)
    }

    ghost predicate Valid()
      reads this
    {
      Ok(Headers(), list, first, free, next, previous)
    }

    /** Headers of the blocks handed out. */
    ghost function Used(): set<nat>
      reads this
    {
      Outside(Headers(), list)
    }

    constructor (blockSize: nat, memAddr: nat, size: nat)
      requires size >= HEADER + blockSize
      ensures Valid() && base == memAddr && this.blockSize == blockSize
      ensures Times(num, HEADER + blockSize) <= size < Times(num, HEADER + blockSize) + HEADER + blockSize
      ensures free == num && Used() == {}
    {
      hide Heads, Times, Circular, Threaded, Ok, Outside, BlockCount;
      var stride := HEADER + blockSize;
      var n := BlockCount(size, stride);
      base, this.blockSize, num := memAddr, blockSize, n;
      first, free := memAddr, n;
      next, previous := map[], map[];
      list := [];
      new;
      assert stride > 0;
      ThreadedNone(next, memAddr, stride);
      Thread(stride);
      list := AllHeads(memAddr, stride, n);
      InitialList(memAddr, stride, n, next, previous);
    }

    /** Links every block to the one behind it and the last one back to the first. */
    method Thread(stride: nat)
      requires stride > 0 && num > 0 && first == base
      requires Threaded(next, base, stride, 0) && next.Keys == previous.Keys
      modifies this`next, this`previous
      ensures next.Keys == previous.Keys && Circular(next, base, stride, num)
    {
      hide Threaded, Circular, Heads, Times;
      var current: nat, prev: nat := base, 0;
      var index := 1;
      TimesMore(0, stride);
      while index < num
        invariant 1 <= index <= num && current == HeadAt(base, stride, index - 1)
        invariant Threaded(next, base, stride, index - 1) && next.Keys == previous.Keys
      {
        TimesMore(index - 1, stride);
        ThreadedStep(next, base, stride, index - 1);
        var following := current + stride;
        next := next[current := following];
        previous := previous[current := prev];
        prev := current;
        current := following;
        index := index + 1;
      }
      Closed(next, base, stride, num);
      next := next[current := first];
      previous := previous[current := prev];
      previous := previous[first := current];
    }

    /** Takes the block at the front of the list; fails exactly when the counter is zero. */
    method Alloc() returns (r: Option<nat>)
      requires Valid()
      modifies this
      ensures Valid()
      ensures r.None? <==> old(list) == []
      ensures r.None? ==> list == old(list)
      ensures r.Some? ==> r.value == old(list)[0] + HEADER && list == old(list)[1..]
      ensures r.Some? ==> old(list)[0] !in old(Used()) && Used() == old(Used()) + {old(list)[0]}
    {
      hide Heads, Ok, Outside;
      Popped(Headers(), list, first, free, next, previous);
      if free == 0 {
        return None;
      }
      var current: nat := first;
      var following := next[current];
      previous := previous[following := 0];
      first := following;
      free := free - 1;
      list := list[1..];
      r := Some(current + HEADER);
    }

    /** Puts a block back at the front. */
    method Free(address: nat)
      requires Valid() && address >= HEADER && address - HEADER in Used()
      modifies this
      ensures Valid() && list == [address - HEADER] + old(list)
      ensures Used() == old(Used()) - {address - HEADER}
    {
      hide Heads, Ok, Outside;
      var current: nat := address - HEADER;
      Pushed(Headers(), list, first, free, next, previous, current);
      free := free + 1;
      var was := first;
      first := current;
      next := next[current := was];
      previous := previous[current := 0];
      previous := previous[was := current];
      list := [current] + list;
    }
  }

  ghost function AllHeads(base: nat, stride: nat, n: nat): seq<nat> {
    seq(n, k requires 0 <= k < n => HeadAt(base, stride, k))
  }

  /** The first m blocks are linked each to its successor. */
  ghost predicate Threaded(next: map<nat, nat>, base: nat, stride: nat, m: nat) {
    && next.Keys == Heads(base, stride, m)
    && (forall k: nat :: k < m ==> HeadAt(base, stride, k) in next)
    && forall k: nat, l: nat :: k < m && l == k + 1 ==> next[HeadAt(base, stride, k)] == HeadAt(base, stride, l)
  }

  ghost predicate Circular(next: map<nat, nat>, base: nat, stride: nat, n: nat) {
    && n > 0 && next.Keys == Heads(base, stride, n)
    && (forall k: nat :: k < n ==> HeadAt(base, stride, k) in next)
    && (forall k: nat, l: nat :: l == k + 1 && l < n ==> next[HeadAt(base, stride, k)] == HeadAt(base, stride, l))
    && next[HeadAt(base, stride, n - 1)] == base
  }

  lemma ThreadedNone(next: map<nat, nat>, base: nat, stride: nat)
    requires next == map[]
    ensures Threaded(next, base, stride, 0)
  {
  }

  lemma ThreadedStep(next: map<nat, nat>, base: nat, stride: nat, m: nat)
    requires stride > 0 && Threaded(next, base, stride, m)
    ensures Threaded(next[HeadAt(base, stride, m) := HeadAt(base, stride, m + 1)], base, stride, m + 1)
  {
    hide HeadAt;
    FreshHead(base, stride, m);
  }

  lemma Closed(next: map<nat, nat>, base: nat, stride: nat, n: nat)
    requires n > 0 && stride > 0 && Threaded(next, base, stride, n - 1)
    ensures Circular(next[HeadAt(base, stride, n - 1) := base], base, stride, n)
    ensures base in next[HeadAt(base, stride, n - 1) := base]
  {
    FreshHead(base, stride, n - 1);
    HeadIn(base, stride, n, 0);
    assert HeadAt(base, stride, 0) == base;
    ClosedLinks(next, base, stride, n);
  }

  lemma ClosedLinks(next: map<nat, nat>, base: nat, stride: nat, n: nat)
    requires n > 0 && Threaded(next, base, stride, n - 1) && HeadAt(base, stride, n - 1) !in next
    ensures Circular(next[HeadAt(base, stride, n - 1) := base], base, stride, n)
  {
    hide HeadAt;
  }

  /** How many blocks fit. */
  function BlockCount(size: nat, stride: nat): (n: nat)
    requires 0 < stride <= size
    ensures n > 0 && Times(n, stride) <= size < Times(n, stride) + stride
  {
    TimesIsProduct(size / stride, stride);
    assert size / stride > 0;
    size / stride
  }

  lemma FreshHead(base: nat, stride: nat, n: nat)
    requires stride > 0
    ensures HeadAt(base, stride, n) !in Heads(base, stride, n)
  {
    if HeadAt(base, stride, n) in Heads(base, stride, n) {
      var k := HeadNumber(base, stride, n, HeadAt(base, stride, n));
      Spaced(stride, k, n);
    }
  }

  lemma InitialList(base: nat, stride: nat, n: nat, next: map<nat, nat>, previous: map<nat, nat>)
    requires stride > 0 && Circular(next, base, stride, n) && next.Keys == previous.Keys
    ensures var list := AllHeads(base, stride, n);
            && Ok(Heads(base, stride, n), list, base, n, next, previous)
            && Outside(Heads(base, stride, n), list) == {}
  {
    var list := AllHeads(base, stride, n);
    forall i, j | 0 <= i < j < n
      ensures list[i] != list[j]
    {
      Spaced(stride, i, j);
    }
    InitialLinks(base, stride, n, next);
    BaseIsHead(base, stride, n);
    assert list[0] == HeadAt(base, stride, 0);
  }

  lemma InitialLinks(base: nat, stride: nat, n: nat, next: map<nat, nat>)
    requires Circular(next, base, stride, n)
    ensures var list := AllHeads(base, stride, n);
            Linked(next, list) && forall a :: a in Heads(base, stride, n) <==> a in list
    ensures next.Values <= Heads(base, stride, n)
  {
    hide HeadAt;
    var list := AllHeads(base, stride, n);
    forall a: nat
      ensures a in Heads(base, stride, n) <==> a in list
    {
      if a in Heads(base, stride, n) {
        var k := HeadNumber(base, stride, n, a);
        assert list[k] == a;
      }
      if a in list {
        var k :| 0 <= k < n && list[k] == a;
        HeadIn(base, stride, n, k);
      }
    }
    forall v | v in next.Values
      ensures v in Heads(base, stride, n)
    {
      var a :| a in next && next[a] == v;
      var k := HeadNumber(base, stride, n, a);
      if k < n - 1 { HeadIn(base, stride, n, k + 1); } else { BaseIsHead(base, stride, n); }
    }
  }

  lemma BaseIsHead(base: nat, stride: nat, n: nat)
    requires n > 0
    ensures base in Heads(base, stride, n)
  {
    HeadIn(base, stride, n, 0);
    assert HeadAt(base, stride, 0) == base;
  }
}
