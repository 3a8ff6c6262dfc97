/** map_vm_mem of virtual_memory/vm.c on address ranges: which page table entries are written, in which
    order. Entries are known by their page number; frames are page numbers of physical memory. */
module PageRanges {

  const PAGE: nat := 4096
  const ENTRIES: nat := 1024
  const TABLE: nat := 4194304

  // ------------------------------------------------------------ the bounds the code computes

  function PageCount(size: nat): nat {
    size / PAGE + if size % PAGE > 0 then 1 else 0
  }

  function DirCount(size: nat): nat {
    PageCount(size) / ENTRIES + if PageCount(size) % ENTRIES > 0 then 1 else 0
  }

  function FirstDir(v: nat): nat {
    v / TABLE
  }

  function FirstEntry(v: nat): (e: nat)
    ensures e < ENTRIES
  {
    v % TABLE / PAGE
  }

  function LastEntry(v: nat, size: nat): (e: nat)
    requires size > 0
    ensures e < ENTRIES
  {
    (v + size - 1) % TABLE / PAGE
  }

  /** First entry, and one beyond the last, in the table of directory i. */
  function Bounds(v: nat, size: nat, i: nat): (nat, nat)
    requires size > 0
  {
    var pdCount := DirCount(size);
    if i == FirstDir(v) && pdCount > 1 then (FirstEntry(v), ENTRIES)
    else if i == FirstDir(v) && pdCount == 1 then (FirstEntry(v), LastEntry(v, size) + 1)
    else if i == FirstDir(v) + pdCount - 1 then (0, LastEntry(v, size) + 1)
    else (0, ENTRIES)
  }

  // ------------------------------------------------------------ the pages written

  /** The numbers from a up to, but not including, b. */
  function Range(a: nat, b: nat): (s: seq<nat>)
    ensures |s| == if a <= b then b - a else 0
    ensures forall k :: 0 <= k < |s| ==> s[k] == a + k
    decreases b
  {
    if a >= b then [] else Range(a, b - 1) + [b - 1]
  }

  function InTable(v: nat, size: nat, i: nat): seq<nat>
    requires size > 0
  {
    var (start, end) := Bounds(v, size, i);
    Range(i * ENTRIES + start, i * ENTRIES + end)
  }

  /** The pages of the first k directories, in the order the loops reach them. */
  function Visited(v: nat, size: nat, k: nat): seq<nat>
    requires size > 0
  {
    if k == 0 then [] else Visited(v, size, k - 1) + InTable(v, size, FirstDir(v) + (k - 1))
  }

  function LastDir(v: nat, size: nat): nat
    requires size > 0
  {
    (v + size - 1) / TABLE
  }

  /** The pages that hold a byte of the range. */
  function Wanted(v: nat, size: nat): seq<nat>
    requires size > 0
  {
    Range(v / PAGE, (v + size - 1) / PAGE + 1)
  }

  lemma RangeJoin(a: nat, b: nat, c: nat)
    requires a <= b <= c
    ensures Range(a, b) + Range(b, c) == Range(a, c)
  {
  }

  /** A page number is its directory and its entry. */
  lemma PageParts(x: nat)
    ensures x / PAGE == x / TABLE * ENTRIES + x % TABLE / PAGE
  {
    var d, r := x / TABLE, x % TABLE;
    assert x == TABLE * d + r;
    assert x == PAGE * (ENTRIES * d + r / PAGE) + r % PAGE;
  }

  lemma DirCountIsCeiling(size: nat)
    requires size > 0
    ensures DirCount(size) >= 1 && TABLE * (DirCount(size) - 1) < size <= TABLE * DirCount(size)
  {
    var p, d := PageCount(size), DirCount(size);
    assert PAGE * (p - 1) < size <= PAGE * p;
    assert ENTRIES * (d - 1) < p <= ENTRIES * d;
    assert ENTRIES * (d - 1) <= p - 1;
    assert PAGE * (ENTRIES * (d - 1)) == TABLE * (d - 1);
  }

  /** The range touches as many directories as the code computes, or one more. */
  lemma SpanBounds(v: nat, size: nat)
    requires size > 0
    ensures var n := LastDir(v, size) - FirstDir(v) + 1;
            n == DirCount(size) || n == DirCount(size) + 1
  {
    DirCountIsCeiling(size);
    var a, b, d := FirstDir(v), LastDir(v, size), DirCount(size);
    assert TABLE * a <= v < TABLE * a + TABLE;
    assert TABLE * b <= v + size - 1 < TABLE * b + TABLE;
  }

  lemma {:induction false} VisitedBelow(v: nat, size: nat, k: nat)
    requires size > 0
    ensures forall j :: 0 <= j < |Visited(v, size, k)| ==> Visited(v, size, k)[j] < (FirstDir(v) + k) * ENTRIES
    decreases k
  {
    if k > 0 {
      VisitedBelow(v, size, k - 1);
    }
  }

  /** Every table but the last is written from its first entry of the range to its end. */
  lemma WholeTable(v: nat, size: nat, k: nat)
    requires size > 0 && 0 < k < DirCount(size)
    ensures var d := FirstDir(v) + (k - 1);
            && v / PAGE <= d * ENTRIES + ENTRIES && (k > 1 ==> v / PAGE <= d * ENTRIES)
            && InTable(v, size, d) == if k == 1 then Range(v / PAGE, d * ENTRIES + ENTRIES)
                                      else Range(d * ENTRIES, d * ENTRIES + ENTRIES)
  {
    hide DirCount, Range;
    PageParts(v);
  }

  lemma {:induction false} VisitedAll(v: nat, size: nat, k: nat)
    requires size > 0 && 0 < k < DirCount(size)
    ensures Visited(v, size, k) == Range(v / PAGE, (FirstDir(v) + k) * ENTRIES)
    decreases k
  {
    hide DirCount, InTable, Range, Visited, FirstDir;
    var d := FirstDir(v) + (k - 1);
    WholeTable(v, size, k);
    VisitedNext(v, size, k - 1);
    if k == 1 {
      VisitedNone(v, size);
    } else {
      VisitedAll(v, size, k - 1);
      RangeJoin(v / PAGE, d * ENTRIES, d * ENTRIES + ENTRIES);
    }
  }

  /** The pages written are exactly the pages of the range, in order, if and only if the range touches as
      many directories as its size alone would need. */
  lemma MapsWanted(v: nat, size: nat)
    requires size > 0
    ensures Visited(v, size, DirCount(size)) == Wanted(v, size) <==> LastDir(v, size) - FirstDir(v) + 1 == DirCount(size)
  {
    var d := DirCount(size);
    DirCountIsCeiling(size);
    PageParts(v + size - 1);
    if LastDir(v, size) - FirstDir(v) + 1 == d {
      AllMapped(v, size);
    } else {
      SpanBounds(v, size);
      assert LastDir(v, size) >= FirstDir(v) + d;
      VisitedBelow(v, size, d);
      LastWanted(v, size);
    }
  }

  lemma LastWanted(v: nat, size: nat)
    requires size > 0
    ensures |Wanted(v, size)| > 0 && Wanted(v, size)[|Wanted(v, size)| - 1] == (v + size - 1) / PAGE
  {
    assert v / PAGE <= (v + size - 1) / PAGE;
  }

  lemma AllMapped(v: nat, size: nat)
    requires size > 0 && LastDir(v, size) - FirstDir(v) + 1 == DirCount(size)
    ensures Visited(v, size, DirCount(size)) == Wanted(v, size)
  {
    hide Range, DirCount, Visited;
    var d := DirCount(size);
    DirCountIsCeiling(size);
    var i := LastDir(v, size);
    PageParts(v);
    PageParts(v + size - 1);
    VisitedNext(v, size, d - 1);
    if d == 1 {
      VisitedNone(v, size);
    } else {
      VisitedAll(v, size, d - 1);
      assert v / PAGE <= i * ENTRIES;
      RangeJoin(v / PAGE, i * ENTRIES, (v + size - 1) / PAGE + 1);
    }
  }

  lemma VisitedNone(v: nat, size: nat)
    requires size > 0
    ensures Visited(v, size, 0) == []
  {
  }

  lemma VisitedNext(v: nat, size: nat, k: nat)
    requires size > 0
    ensures Visited(v, size, k + 1) == Visited(v, size, k) + InTable(v, size, FirstDir(v) + k)
  {
  }

  /** A page fault maps one page, and that always works. */
  lemma OnePage(v: nat)
    requires v % PAGE == 0
    ensures Visited(v, PAGE, DirCount(PAGE)) == [v / PAGE]
  {
    MapsWanted(v, PAGE);
    assert DirCount(PAGE) == 1;
    assert LastDir(v, PAGE) == FirstDir(v) by { PageParts(v); PageParts(v + PAGE - 1); }
    assert (v + PAGE - 1) / PAGE == v / PAGE;
  }

  /** Eight kilobytes across a directory boundary: nothing is mapped at all. */
  lemma StraddleMapsNothing()
    ensures Visited(TABLE - PAGE, 2 * PAGE, DirCount(2 * PAGE)) == [] && |Wanted(TABLE - PAGE, 2 * PAGE)| == 2
  {
    assert DirCount(2 * PAGE) == 1;
    assert Visited(TABLE - PAGE, 2 * PAGE, 0) == [];
  }

  // ------------------------------------------------------------ the code

  /** The frames handed out page by page. */
  ghost function Assigned(entries: map<nat, nat>, pages: seq<nat>, frame: nat): map<nat, nat> {
    if pages == [] then entries
    else
      var n := |pages| - 1;
      Assigned(entries, pages[..n], frame)[pages[n] := frame + n]
  }

  lemma AssignedMore(entries: map<nat, nat>, pages: seq<nat>, p: nat, frame: nat)
    ensures Assigned(entries, pages + [p], frame) == Assigned(entries, pages, frame)[p := frame + |pages|]
  {
    assert (pages + [p])[..|pages|] == pages;
  }

  lemma NoneAssigned(entries: map<nat, nat>, frame: nat)
    ensures Assigned(entries, [], frame) == entries
  {
  }

  /** A range of pages gets a range of frames, and nothing else changes. */
  lemma {:induction false} AssignedRange(entries: map<nat, nat>, a: nat, b: nat, frame: nat)
    requires a <= b
    ensures var r := Assigned(entries, Range(a, b), frame);
            && (forall p :: p in r <==> p in entries || a <= p < b)
            && (forall p :: a <= p < b ==> r[p] == frame + (p - a))
            && forall p :: p in entries && !(a <= p < b) ==> r[p] == entries[p]
    decreases b
  {
    hide Assigned;
    if a < b {
      AssignedRange(entries, a, b - 1, frame);
      AssignedMore(entries, Range(a, b - 1), b - 1, frame);
    } else {
      NoneAssigned(entries, frame);
    }
  }

  class PageDirectory {
    var present: set<nat>
    var entries: map<nat, nat>

    /** Only directories with a page table have entries. */
    ghost predicate Valid()
      reads this
    {
      forall p :: p in entries ==> p / ENTRIES in present
    }

    method MapRange(v: nat, frame: nat, size: nat)
      requires Valid()
      modifies this
      ensures Valid()
      ensures size == 0 ==> entries == old(entries) && present == old(present)
      ensures size > 0 ==> entries == Assigned(old(entries), Visited(v, size, DirCount(size)), frame)
      ensures forall i :: i in present <==> i in old(present) || FirstDir(v) <= i < FirstDir(v) + DirCount(size)
    {
      hide Bounds, DirCount, FirstDir, Assigned, Visited, Range;
      var pdCount := DirCount(size);
      var first := FirstDir(v);
      if size == 0 {
        NoDirs();
        return;
      }
      var i, next := first, frame;
      VisitedNone(v, size);
      NoneAssigned(entries, frame);
      while i < first + pdCount
        invariant first <= i <= first + pdCount && Valid()
        invariant next == frame + |Visited(v, size, i - first)|
        invariant entries == Assigned(old(entries), Visited(v, size, i - first), frame)
        invariant forall d :: d in present <==> d in old(present) || first <= d < i
      {
        present := present + {i};
        var (start, end) := Bounds(v, size, i);
        BoundsInTable(v, size, i);
        VisitedNext(v, size, i - first);
        next := MapTable(i, start, end, next, old(entries), Visited(v, size, i - first), frame);
        i := i + 1;
      }
    }

    /** The inner loop over one page table. */
    method MapTable(i: nat, start: nat, end: nat, frame: nat, ghost was: map<nat, nat>, ghost done: seq<nat>, ghost base: nat)
      returns (next: nat)
      requires Valid() && i in present && start < ENTRIES && end <= ENTRIES
      requires frame == base + |done| && entries == Assigned(was, done, base)
      modifies this`entries
      ensures Valid()
      ensures var pages := done + Range(i * ENTRIES + start, i * ENTRIES + end);
              next == base + |pages| && entries == Assigned(was, pages, base)
    {
      hide Assigned, Range;
      var j := start;
      next := frame;
      ghost var lo := i * ENTRIES + start;
      EmptyRange(lo, lo);
      assert done + [] == done;
      while j < end
        invariant start <= j && (j <= end || j == start) && Valid()
        invariant next == base + |done + Range(lo, i * ENTRIES + j)|
        invariant entries == Assigned(was, done + Range(lo, i * ENTRIES + j), base)
      {
        var page := i * ENTRIES + j;
        RangeNext(lo, page);
        AssignedMore(was, done + Range(lo, page), page, base);
        assert done + Range(lo, page) + [page] == done + (Range(lo, page) + [page]);
        assert page / ENTRIES == i;
        entries := entries[page := next];
        next := next + 1;
        j := j + 1;
      }
      if j > end { EmptyRange(lo, i * ENTRIES + end); }
    }
  }

  lemma NoDirs()
    ensures DirCount(0) == 0
  {
  }

  lemma EmptyRange(a: nat, b: nat)
    requires b <= a
    ensures Range(a, b) == []
  {
  }

  lemma RangeNext(a: nat, b: nat)
    requires a <= b
    ensures Range(a, b + 1) == Range(a, b) + [b]
  {
  }

  lemma BoundsInTable(v: nat, size: nat, i: nat)
    requires size > 0
    ensures Bounds(v, size, i).0 < ENTRIES && 0 < Bounds(v, size, i).1 <= ENTRIES
  {
  }
}
