/** Reading a file of the ext2 file system: the block mapping, the block-at-a-time loop, and the DMA path
    that merges neighbouring blocks into runs. Reads end at most one byte behind the file. */
module Ext2Read {
  import opened Basics
  import opened Ext2Blocks

  const SECTOR: nat := 512
  const POINTERS: nat := 256
  const INDIRECT_0_LIMIT: nat := 11
  const INDIRECT_1_LIMIT: nat := 267
  const INDIRECT_2_LIMIT: nat := 65803

  /** The bytes that direct, single and double indirect blocks can hold. */
  const FILE_LIMIT: nat := BLOCK * (INDIRECT_2_LIMIT + 1)

  type Sector = s: seq<Byte> | |s| == SECTOR witness seq(SECTOR, _ => 0)

  /** A disk and the first sector of the partition. */
  datatype Volume = Volume(disk: nat -> Sector, start: nat)

  // ------------------------------------------------------------ what is stored where

  /** Byte j of what the sectors from lba on hold. */
  function ByteAt(v: Volume, lba: nat, j: nat): Byte {
    v.disk(lba + j / SECTOR)[j % SECTOR]
  }

  function Lba(v: Volume, block: nat): nat {
    v.start + block * BLOCK / SECTOR
  }

  lemma LbaIs(v: Volume, block: nat)
    ensures Lba(v, block) == v.start + 2 * block
  {
  }

  /** Pointer k of an indirect block. */
  function Pointer(v: Volume, lba: nat, k: nat): nat {
    Double(ByteAt(v, lba, 4 * k), ByteAt(v, lba, 4 * k + 1), ByteAt(v, lba, 4 * k + 2), ByteAt(v, lba, 4 * k + 3))
  }

  function Pointers(v: Volume, block: nat): (r: seq<nat>)
    ensures |r| == POINTERS && forall k :: 0 <= k < POINTERS ==> r[k] == Pointer(v, Lba(v, block), k)
  {
    seq(POINTERS, k requires 0 <= k < POINTERS => Pointer(v, Lba(v, block), k))
  }

  /** The fifteen pointers of an inode. */
  type Roots = r: seq<nat> | |r| == 15 witness seq(15, _ => 0)

  /** The disk block that holds block i of the file. */
  function BlockOf(v: Volume, roots: Roots, i: nat): nat
    requires i <= INDIRECT_2_LIMIT
  {
    if i <= INDIRECT_0_LIMIT then roots[i]
    else if i <= INDIRECT_1_LIMIT then Pointer(v, Lba(v, roots[12]), i - 12)
    else Pointer(v, Lba(v, Pointer(v, Lba(v, roots[13]), (i - 268) / 256)), (i - 268) % 256)
  }

  /** No pointer on the way to block i is null. */
  predicate Mapped(v: Volume, roots: Roots, i: nat) {
    && i <= INDIRECT_2_LIMIT && BlockOf(v, roots, i) != 0
    && (INDIRECT_0_LIMIT < i <= INDIRECT_1_LIMIT ==> roots[12] != 0)
    && (INDIRECT_1_LIMIT < i ==> roots[13] != 0 && Pointer(v, Lba(v, roots[13]), (i - 268) / 256) != 0)
  }

  function LbaOf(v: Volume, roots: Roots, i: nat): nat
    requires i <= INDIRECT_2_LIMIT
  {
    Lba(v, BlockOf(v, roots, i))
  }

  /** Byte p of the file. */
  function FileByte(v: Volume, roots: Roots, p: nat): Byte
    requires p < FILE_LIMIT
  {
    ByteAt(v, LbaOf(v, roots, p / BLOCK), p % BLOCK)
  }

  lemma MappedPositive(v: Volume, roots: Roots, i: nat)
    requires Mapped(v, roots, i)
    ensures LbaOf(v, roots, i) > 0
  {
  }

  // ------------------------------------------------------------ the pointer tree

  /** The bytes of a disk block: two sectors. */
  ghost function BlockBytes(v: Volume, block: nat): (r: seq<Byte>)
    ensures |r| == BLOCK
  {
    v.disk(v.start + 2 * block) + v.disk(v.start + 2 * block + 1)
  }

  /** Bytes read as little-endian words of four. */
  ghost function Doubles(bs: seq<Byte>): (r: seq<nat>)
    requires |bs| % 4 == 0
    ensures |r| == |bs| / 4
    decreases |bs|
  {
    if bs == [] then [] else [Double(bs[0], bs[1], bs[2], bs[3])] + Doubles(bs[4..])
  }

  /** What the given blocks point to, one after the other. */
  ghost function Under(v: Volume, blocks: seq<nat>): (r: seq<nat>)
    ensures |r| == POINTERS * |blocks|
    decreases |blocks|
  {
    if blocks == [] then [] else Doubles(BlockBytes(v, blocks[0])) + Under(v, blocks[1..])
  }

  /** The blocks of the file in order: the direct ones, those under the single and those under the double
      indirect block. */
  ghost function Leaves(v: Volume, roots: Roots): (r: seq<nat>)
    ensures |r| == INDIRECT_2_LIMIT + 1
  {
    roots[..12] + Under(v, [roots[12]]) + Under(v, Under(v, [roots[13]]))
  }

  /** The contents of the given blocks, one after the other. */
  ghost function Image(v: Volume, blocks: seq<nat>): (r: seq<Byte>)
    ensures |r| == BLOCK * |blocks|
    decreases |blocks|
  {
    if blocks == [] then [] else BlockBytes(v, blocks[0]) + Image(v, blocks[1..])
  }

  lemma BlockByteAt(v: Volume, block: nat, j: nat)
    requires j < BLOCK
    ensures BlockBytes(v, block)[j] == ByteAt(v, Lba(v, block), j)
  {
    assert Lba(v, block) == v.start + 2 * block;
    if j < SECTOR {
      assert j / SECTOR == 0 && j % SECTOR == j;
    } else {
      assert j / SECTOR == 1 && j % SECTOR == j - SECTOR;
    }
  }

  lemma {:induction false} DoublesAt(bs: seq<Byte>, k: nat)
    requires |bs| % 4 == 0 && 4 * k < |bs|
    ensures Doubles(bs)[k] == Double(bs[4 * k], bs[4 * k + 1], bs[4 * k + 2], bs[4 * k + 3])
    decreases k
  {
    hide Double;
    if k > 0 {
      DoublesAt(bs[4..], k - 1);
    }
  }

  lemma TableIs(v: Volume, block: nat)
    ensures Doubles(BlockBytes(v, block)) == Pointers(v, block)
  {
    hide BlockBytes, ByteAt, Lba, Double, Doubles;
    var bs := BlockBytes(v, block);
    forall k | 0 <= k < POINTERS
      ensures Doubles(bs)[k] == Pointers(v, block)[k]
    {
      DoublesAt(bs, k);
      BlockByteAt(v, block, 4 * k);
      BlockByteAt(v, block, 4 * k + 1);
      BlockByteAt(v, block, 4 * k + 2);
      BlockByteAt(v, block, 4 * k + 3);
    }
  }

  lemma {:induction false} UnderAt(v: Volume, blocks: seq<nat>, k: nat)
    requires k < POINTERS * |blocks|
    ensures k / POINTERS < |blocks| && Under(v, blocks)[k] == Pointers(v, blocks[k / POINTERS])[k % POINTERS]
    decreases |blocks|
  {
    hide BlockBytes, Pointer, Lba, Doubles;
    TableIs(v, blocks[0]);
    if k >= POINTERS {
      UnderAt(v, blocks[1..], k - POINTERS);
      assert k / POINTERS == (k - POINTERS) / POINTERS + 1 && k % POINTERS == (k - POINTERS) % POINTERS;
    }
  }

  /** The index arithmetic finds block i of the file: it is the i-th leaf of the tree. */
  lemma LeafOf(v: Volume, roots: Roots, i: nat)
    requires i <= INDIRECT_2_LIMIT
    ensures BlockOf(v, roots, i) == Leaves(v, roots)[i]
  {
    hide Under, Pointer, Lba;
    var outer := Under(v, [roots[13]]);
    if INDIRECT_0_LIMIT < i <= INDIRECT_1_LIMIT {
      UnderAt(v, [roots[12]], i - 12);
    } else if INDIRECT_1_LIMIT < i {
      var k := i - 268;
      UnderAt(v, outer, k);
      UnderAt(v, [roots[13]], k / POINTERS);
    }
  }

  lemma {:induction false} ImageAt(v: Volume, blocks: seq<nat>, p: nat)
    requires p < BLOCK * |blocks|
    ensures p / BLOCK < |blocks| && Image(v, blocks)[p] == ByteAt(v, Lba(v, blocks[p / BLOCK]), p % BLOCK)
    decreases |blocks|
  {
    hide BlockBytes, ByteAt, Lba;
    if p < BLOCK {
      BlockByteAt(v, blocks[0], p);
      assert p / BLOCK == 0 && p % BLOCK == p;
    } else {
      ImageAt(v, blocks[1..], p - BLOCK);
      assert p / BLOCK == (p - BLOCK) / BLOCK + 1 && p % BLOCK == (p - BLOCK) % BLOCK;
    }
  }

  /** Byte p of the file is byte p of the leaves' contents put together. */
  lemma FileByteIs(v: Volume, roots: Roots, p: nat)
    requires p < FILE_LIMIT
    ensures FileByte(v, roots, p) == Image(v, Leaves(v, roots))[p]
  {
    hide Leaves, Image, BlockOf, ByteAt, Lba;
    LeafOf(v, roots, p / BLOCK);
    ImageAt(v, Leaves(v, roots), p);
  }

  // ------------------------------------------------------------ runs

  datatype Run = Run(lba: nat, sectors: nat)

  /** The blocks of a run. */
  function Blocks(r: Run): (s: seq<nat>)
    ensures |s| == r.sectors / 2
  {
    seq(r.sectors / 2, t requires t >= 0 => r.lba + 2 * t)
  }

  function Flatten(rs: seq<Run>): seq<nat> {
    if rs == [] then [] else Flatten(rs[..|rs| - 1]) + Blocks(rs[|rs| - 1])
  }

  ghost predicate Whole(rs: seq<Run>) {
    forall k :: 0 <= k < |rs| ==> rs[k].sectors > 0 && rs[k].sectors % 2 == 0
  }

  /** Neighbouring runs could not have been one. */
  ghost predicate Maximal(rs: seq<Run>) {
    forall k, l :: 0 <= k && l == k + 1 && l < |rs| ==> rs[l].lba != rs[k].lba + rs[k].sectors
  }

  lemma FlattenMore(rs: seq<Run>, r: Run)
    ensures Flatten(rs + [r]) == Flatten(rs) + Blocks(r)
  {
    assert (rs + [r])[..|rs|] == rs;
  }

  lemma BlocksMore(r: Run)
    requires r.sectors % 2 == 0
    ensures Blocks(Run(r.lba, r.sectors + 2)) == Blocks(r) + [r.lba + r.sectors]
  {
  }

  lemma {:induction false} FlattenPart(rs: seq<Run>, i: nat)
    requires i < |rs|
    ensures |Flatten(rs[..i])| + rs[i].sectors / 2 <= |Flatten(rs)|
    ensures forall t :: 0 <= t < rs[i].sectors / 2 ==>
      Flatten(rs)[|Flatten(rs[..i])| + t] == rs[i].lba + 2 * t
    decreases |rs|
  {
    var n := |rs| - 1;
    if i < n {
      FlattenPart(rs[..n], i);
      assert rs[..n][..i] == rs[..i];
    }
  }

  lemma FlattenNext(rs: seq<Run>, i: nat)
    requires i < |rs|
    ensures |Flatten(rs[..i + 1])| == |Flatten(rs[..i])| + rs[i].sectors / 2
  {
    FlattenMore(rs[..i], rs[i]);
    assert rs[..i + 1] == rs[..i] + [rs[i]];
  }

  /** Reading a run gives the bytes of its blocks of the file, one after the other. */
  lemma RunBytes(v: Volume, roots: Roots, first: nat, lbas: seq<nat>, rs: seq<Run>, i: nat, j: nat)
    requires i < |rs| && Whole(rs) && Flatten(rs) == lbas && first + |lbas| <= INDIRECT_2_LIMIT + 1
    requires forall k :: 0 <= k < |lbas| ==> lbas[k] == LbaOf(v, roots, first + k)
    requires j < SECTOR * rs[i].sectors
    ensures var p := BLOCK * (first + |Flatten(rs[..i])|) + j;
            p < FILE_LIMIT && ByteAt(v, rs[i].lba, j) == FileByte(v, roots, p)
  {
    hide BlockOf, LbaOf;
    FlattenPart(rs, i);
    var m := |Flatten(rs[..i])|;
    var p := BLOCK * (first + m) + j;
    var t := j / BLOCK;
    assert t < rs[i].sectors / 2;
    assert p / BLOCK == first + m + t && p % BLOCK == j % BLOCK;
    assert lbas[m + t] == rs[i].lba + 2 * t;
    assert rs[i].lba + 2 * t + (j % BLOCK) / SECTOR == rs[i].lba + j / SECTOR;
    assert (j % BLOCK) % SECTOR == j % SECTOR;
  }

  // ------------------------------------------------------------ collecting runs

  /** The list of finished runs, and the run in progress; a first lba of zero means there is none. */
  datatype Collector = Collector(runs: seq<Run>, firstLba: nat, lastLba: nat, sectors: nat)

  const BLOCK_SECTORS: nat := BLOCK / SECTOR

  /** What the loop does with the lba of one more block. */
  function Collect(c: Collector, lba: nat, isLast: bool): Collector {
    if c.firstLba == 0 && !isLast then
      Collector([], lba, lba, BLOCK_SECTORS)
    else if c.firstLba == 0 then
      c.(runs := [Run(lba, BLOCK_SECTORS)], sectors := BLOCK_SECTORS)
    else if lba == c.lastLba + BLOCK_SECTORS && !isLast then
      c.(sectors := c.sectors + BLOCK_SECTORS, lastLba := lba)
    else if lba == c.lastLba + BLOCK_SECTORS then
      c.(sectors := c.sectors + BLOCK_SECTORS, runs := c.runs + [Run(c.firstLba, c.sectors + BLOCK_SECTORS)])
    else if isLast then
      c.(runs := c.runs + [Run(c.firstLba, c.sectors)] + [Run(lba, BLOCK_SECTORS)], sectors := BLOCK_SECTORS)
    else
      Collector(c.runs + [Run(c.firstLba, c.sectors)], lba, lba, BLOCK_SECTORS)
  }

  /** The loop over the first n blocks. */
  ghost function CollectUpTo(lbas: seq<nat>, n: nat): Collector
    requires n <= |lbas|
  {
    if n == 0 then Collector([], 0, 0, 0) else Collect(CollectUpTo(lbas, n - 1), lbas[n - 1], n == |lbas|)
  }

  /** The runs that the loop makes of the blocks of a request. */
  ghost function RunsOf(lbas: seq<nat>): seq<Run> {
    CollectUpTo(lbas, |lbas|).runs
  }

  ghost predicate Exactly(rs: seq<Run>, lbas: seq<nat>) {
    Whole(rs) && Maximal(rs) && Flatten(rs) == lbas
  }

  /** The finished runs and the one in progress stand for the blocks seen so far. */
  ghost predicate Collected(c: Collector, lbas: seq<nat>) {
    if lbas == [] then c.firstLba == 0 && c.runs == []
    else
      && c.firstLba > 0 && c.sectors > 0 && c.lastLba + 2 == c.firstLba + c.sectors
      && Exactly(c.runs + [Run(c.firstLba, c.sectors)], lbas)
  }

  lemma ExactlyLonger(rs: seq<Run>, lba: nat, sectors: nat, lbas: seq<nat>)
    requires sectors > 0 && Exactly(rs + [Run(lba, sectors)], lbas)
    ensures Exactly(rs + [Run(lba, sectors + 2)], lbas + [lba + sectors])
  {
    hide Flatten, Blocks;
    var r, t := Run(lba, sectors), Run(lba, sectors + 2);
    assert (rs + [r])[|rs|] == r;
    FlattenMore(rs, r);
    FlattenMore(rs, t);
    BlocksMore(r);
    assert Flatten(rs) + Blocks(t) == lbas + [lba + sectors];
    assert Whole(rs + [t]) by {
      assert forall k :: 0 <= k < |rs| ==> (rs + [t])[k] == (rs + [r])[k];
    }
    assert Maximal(rs + [t]) by {
      assert forall k :: 0 <= k < |rs| ==> (rs + [t])[k] == (rs + [r])[k];
      assert (rs + [t])[|rs|].lba == (rs + [r])[|rs|].lba;
    }
  }

  lemma ExactlyMore(rs: seq<Run>, r: Run, lba: nat, lbas: seq<nat>)
    requires Exactly(rs + [r], lbas) && lba != r.lba + r.sectors
    ensures Exactly(rs + [r] + [Run(lba, 2)], lbas + [lba])
  {
    hide Flatten;
    FlattenMore(rs + [r], Run(lba, 2));
    assert Blocks(Run(lba, 2)) == [lba];
  }

  lemma ExactlyOne(lba: nat)
    ensures Exactly([Run(lba, 2)], [lba])
  {
    FlattenMore([], Run(lba, 2));
    assert [] + [Run(lba, 2)] == [Run(lba, 2)];
    assert Blocks(Run(lba, 2)) == [lba];
  }

  /** One more block is taken in, and the last one leaves no run in progress. */
  lemma CollectSound(c: Collector, lbas: seq<nat>, lba: nat, isLast: bool)
    requires Collected(c, lbas) && lba > 0
    ensures isLast ==> Exactly(Collect(c, lba, isLast).runs, lbas + [lba])
    ensures !isLast ==> Collected(Collect(c, lba, isLast), lbas + [lba])
  {
    hide Exactly;
    if lbas == [] {
      ExactlyOne(lba);
      assert [] + [Run(lba, 2)] == [Run(lba, 2)] && lbas + [lba] == [lba];
    } else if lba == c.lastLba + BLOCK_SECTORS {
      ExactlyLonger(c.runs, c.firstLba, c.sectors, lbas);
    } else {
      ExactlyMore(c.runs, Run(c.firstLba, c.sectors), lba, lbas);
    }
  }

  // ------------------------------------------------------------ devices and copies

  /** READ and READ_DMA: sectors from the disk into a buffer. */
  method ReadSectors(v: Volume, sectors: nat, lba: nat, a: array<Byte>)
    requires SECTOR * sectors <= a.Length
    modifies a
    ensures forall j :: 0 <= j < SECTOR * sectors ==> a[j] == ByteAt(v, lba, j)
  {
    var j := 0;
    while j < SECTOR * sectors
      invariant 0 <= j <= SECTOR * sectors
      invariant forall k :: 0 <= k < j ==> a[k] == ByteAt(v, lba, k)
    {
      a[j] := v.disk(lba + j / SECTOR)[j % SECTOR];
      j := j + 1;
    }
  }

  method Copy(dst: array<Byte>, to: nat, src: array<Byte>, from: nat, count: nat)
    requires dst != src && to + count <= dst.Length && from + count <= src.Length
    modifies dst
    ensures forall k :: 0 <= k < dst.Length ==>
      dst[k] == if to <= k < to + count then src[from + (k - to)] else old(dst[k])
  {
    var j := 0;
    while j < count
      invariant 0 <= j <= count
      invariant forall k :: 0 <= k < dst.Length ==>
        dst[k] == if to <= k < to + j then src[from + (k - to)] else old(dst[k])
    {
      dst[to + j] := src[from + j];
      j := j + 1;
    }
  }

  // ------------------------------------------------------------ the file

  class File {
    const v: Volume
    const roots: Roots
    const size: nat
    var offset: nat
    var indirect1: Option<seq<nat>>
    var indirect2: Option<seq<nat>>
    var second: map<nat, seq<nat>>

    constructor (v: Volume, roots: Roots, size: nat)
      ensures Valid() && this.v == v && this.roots == roots && this.size == size && offset == 0
    {
      this.v, this.roots, this.size, offset := v, roots, size, 0;
      indirect1, indirect2, second := None, None, map[];
    }

    /** The cached indirect blocks hold what is on the disk. */
    ghost predicate Valid()
      reads this
    {
      && (indirect1.Some? ==> indirect1.value == Pointers(v, roots[12]))
      && (indirect2.Some? ==> indirect2.value == Pointers(v, roots[13]))
      && (forall s :: s in second ==>
            s < POINTERS && second[s] == Pointers(v, Pointer(v, Lba(v, roots[13]), s)))
    }

    /** Loads an indirect block. */
    method Load(block: nat) returns (r: seq<nat>)
      ensures r == Pointers(v, block)
    {
      var a := new Byte[BLOCK];
      var lba := Lba(v, block);
      ReadSectors(v, BLOCK / SECTOR, lba, a);
      r := [];
      var k := 0;
      while k < POINTERS
        invariant 0 <= k <= POINTERS && |r| == k
        invariant forall l :: 0 <= l < k ==> r[l] == Pointer(v, lba, l)
      {
        r := r + [Double(a[4 * k], a[4 * k + 1], a[4 * k + 2], a[4 * k + 3])];
        k := k + 1;
      }
    }

    /** Direct, single and double indirect blocks, the indirect ones loaded on first use. */
    method MapBlock(i: nat) returns (lba: nat)
      requires Valid() && Mapped(v, roots, i)
      modifies this`indirect1, this`indirect2, this`second
      ensures Valid() && lba == LbaOf(v, roots, i) && lba == v.start + 2 * Leaves(v, roots)[i]
    {
      hide Pointer, Lba, Leaves;
      LeafOf(v, roots, i);
      LbaIs(v, BlockOf(v, roots, i));
      if i > INDIRECT_0_LIMIT && i <= INDIRECT_1_LIMIT {
        var entry := i - INDIRECT_0_LIMIT - 1;
        if indirect1.None? {
          var loaded := Load(roots[12]);
          indirect1 := Some(loaded);
        }
        lba := Lba(v, indirect1.value[entry]);
      } else if i > INDIRECT_1_LIMIT && i <= INDIRECT_2_LIMIT {
        var outer := (i - INDIRECT_1_LIMIT - 1) / (BLOCK / 4);
        var inner := (i - INDIRECT_1_LIMIT - 1) % (BLOCK / 4);
        if indirect2.None? {
          var loaded := Load(roots[13]);
          indirect2 := Some(loaded);
        }
        if outer !in second {
          var loaded := Load(indirect2.value[outer]);
          second := second[outer := loaded];
        }
        lba := Lba(v, second[outer][inner]);
      } else {
        lba := Lba(v, roots[i]);
      }
    }

    /** All of it lies in blocks that exist, and inside the file but for the last byte, which may be the one
        behind the end: the test of the source is off by one. */
    ghost predicate Inside(count: nat)
      reads this`offset
    {
      && count > 0 && offset + (count - 1) <= size
      && forall i :: offset / BLOCK <= i <= (offset + (count - 1)) / BLOCK ==> Mapped(v, roots, i)
    }

    /** _read_write without DMA: one block at a time. */
    method ReadBlocks(buf: array<Byte>, count: nat)
      requires Valid() && Inside(count) && count <= buf.Length
      modifies this, buf
      ensures Valid() && offset == old(offset) + count
      ensures Filled(v, roots, buf[..], old(offset), count)
      ensures buf[count..] == old(buf[count..])
    {
      hide LbaOf, Mapped, FileByte, ByteAt, Filled;
      var first, firstDataOffset := offset / BLOCK, offset % BLOCK;
      var last := (offset + (count - 1)) / BLOCK;
      var toRead, done := count, 0;
      var i := first;
      NothingFilled(v, roots, buf[..], offset);
      while i <= last
        invariant first <= i <= last + 1
        invariant Valid() && done + toRead == count && offset == old(offset) + done
        invariant i > first ==> firstDataOffset == 0
        invariant i <= last ==> offset == BLOCK * i + firstDataOffset
        invariant firstDataOffset < BLOCK
        invariant i == last + 1 ==> toRead == 0
        invariant Filled(v, roots, buf[..], old(offset), done)
        invariant buf[count..] == old(buf[count..])
      {
        var byteCount := ChunkSize(toRead, firstDataOffset, i > first);
        ghost var was: seq<Byte> := buf[..];
        ReadChunk(buf, i, firstDataOffset, done, byteCount, old(offset));
        SameTail(was, buf[..], done + byteCount, count);
        toRead := toRead - byteCount;
        offset := offset + byteCount;
        done := done + byteCount;
        firstDataOffset := 0;
        i := i + 1;
      }
    }

    /** The lba of every block, merged into runs. */
    method CollectRuns(first: nat, last: nat) returns (runs: seq<Run>)
      requires Valid() && first <= last <= INDIRECT_2_LIMIT
      requires forall i :: first <= i <= last ==> Mapped(v, roots, i)
      modifies this`indirect1, this`indirect2, this`second
      ensures Valid() && Exactly(runs, Lbas(v, roots, first, last + 1)) && runs == RunsOf(Lbas(v, roots, first, last + 1))
    {
      hide LbaOf, Exactly, Collected, Collect;
      var c := Collector([], 0, 0, 0);
      ghost var lbas := Lbas(v, roots, first, last + 1);
      NothingCollected(v, roots, first, c);
      var i := first;
      while i <= last
        invariant first <= i <= last + 1 <= INDIRECT_2_LIMIT + 1 && Valid()
        invariant c == CollectUpTo(lbas, i - first)
        invariant i <= last ==> Collected(c, Lbas(v, roots, first, i))
        invariant i == last + 1 ==> Exactly(c.runs, Lbas(v, roots, first, i))
      {
        var lba := MapBlock(i);
        MappedPositive(v, roots, i);
        CollectSound(c, Lbas(v, roots, first, i), lba, i == last);
        c := Collect(c, lba, i == last);
        i := i + 1;
      }
      runs := c.runs;
    }

    /** No run of the request is longer than the DMA buffer. */
    ghost predicate RunsFit(count: nat, dmaSize: nat)
      requires Inside(count)
      reads this`offset
    {
      var first, last := offset / BLOCK, (offset + (count - 1)) / BLOCK;
      assert Mapped(v, roots, last);
      forall r :: r in RunsOf(Lbas(v, roots, first, last + 1)) ==> SECTOR * r.sectors <= dmaSize
    }

    /** _read_write with DMA: each run goes through the DMA buffer, which must be able to hold it. */
    method ReadDma(buf: array<Byte>, count: nat, dmaSize: nat)
      requires Valid() && Inside(count) && count <= buf.Length
      requires RunsFit(count, dmaSize)
      modifies this, buf
      ensures Valid() && offset == old(offset) + count
      ensures Filled(v, roots, buf[..], old(offset), count)
      ensures buf[count..] == old(buf[count..])
    {
      hide LbaOf, FileByte, ByteAt, Filled, Exactly, Mapped, Lbas, Flatten, RunsOf;
      var first, last := offset / BLOCK, (offset + (count - 1)) / BLOCK;
      LastMapped(v, roots, last);
      var runs := CollectRuns(first, last);
      ghost var lbas := Lbas(v, roots, first, last + 1);
      RunsNonEmpty(runs, lbas);
      NothingFilled(v, roots, buf[..], offset);
      var dmaBuffer := new Byte[dmaSize];
      var firstDataOffset := offset % BLOCK;
      var i, done: nat := 0, 0;
      while i < |runs|
        invariant 0 <= i <= |runs| && offset == old(offset) && Valid()
        invariant Reached(runs, i, firstDataOffset, count, done)
        invariant Filled(v, roots, buf[..], offset, done)
        invariant buf[count..] == old(buf[count..])
      {
        var len := runs[i].sectors * SECTOR;
        PortionFits(runs, i, lbas, firstDataOffset, count, done);
        assert runs[i] in runs;
        var (n, from) := Portion(len, i, |runs|, firstDataOffset, count, done);
        ghost var was: seq<Byte> := buf[..];
        ReadRun(buf, runs, i, dmaBuffer, first, last, from, n, done, offset);
        SameTail(was, buf[..], done + n, count);
        done := done + n;
        i := i + 1;
      }
      offset := offset + done;
    }

    /** _read_write for reading: with DMA or without, the buffer gets the same bytes of the file. */
    method Read(buf: array<Byte>, count: nat, isDma: bool, dmaSize: nat)
      requires Valid() && Inside(count) && count <= buf.Length && (isDma ==> RunsFit(count, dmaSize))
      modifies this, buf
      ensures Valid() && offset == old(offset) + count && offset <= FILE_LIMIT
      ensures buf[..] == Image(v, Leaves(v, roots))[old(offset)..offset] + old(buf[count..])
    {
      hide Filled, FileByte, Image, Leaves;
      if isDma {
        ReadDma(buf, count, dmaSize);
      } else {
        ReadBlocks(buf, count);
      }
      FilledIs(v, roots, buf[..], old(offset), count);
    }

    method ReadRun(buf: array<Byte>, runs: seq<Run>, i: nat, dmaBuffer: array<Byte>,
                   ghost first: nat, ghost last: nat, from: nat, n: nat, done: nat, ghost p: nat)
      requires first <= last <= INDIRECT_2_LIMIT && Exactly(runs, Lbas(v, roots, first, last + 1)) && i < |runs|
      requires buf != dmaBuffer && SECTOR * runs[i].sectors <= dmaBuffer.Length
      requires from + n <= SECTOR * runs[i].sectors && done + n <= buf.Length
      requires p + done == BLOCK * (first + |Flatten(runs[..i])|) + from
      requires Filled(v, roots, buf[..], p, done)
      modifies buf, dmaBuffer
      ensures Filled(v, roots, buf[..], p, done + n)
      ensures buf[done + n..] == old(buf[done + n..])
    {
      hide LbaOf, ByteAt, Filled, Flatten, Lbas;
      ReadSectors(v, runs[i].sectors, runs[i].lba, dmaBuffer);
      Copy(buf, done, dmaBuffer, from, n);
      ghost var base, d := BLOCK * (first + |Flatten(runs[..i])|), dmaBuffer[..];
      forall j | from <= j < from + n
        ensures base + j < FILE_LIMIT && d[j] == FileByte(v, roots, base + j)
      {
        RunBytes(v, roots, first, Lbas(v, roots, first, last + 1), runs, i, j);
      }
      FlattenPart(runs, i);
      FilledRun(v, roots, old(buf[..]), buf[..], d, p, done, n, base, from);
    }

    /** The part of block i that is wanted. */
    method ReadChunk(buf: array<Byte>, i: nat, from: nat, done: nat, byteCount: nat, ghost p: nat)
      requires Valid() && Mapped(v, roots, i)
      requires from + byteCount <= BLOCK && done + byteCount <= buf.Length && p + done == BLOCK * i + from
      requires Filled(v, roots, buf[..], p, done)
      modifies this`indirect1, this`indirect2, this`second, buf
      ensures Valid() && Filled(v, roots, buf[..], p, done + byteCount)
      ensures buf[done + byteCount..] == old(buf[done + byteCount..])
    {
      hide LbaOf, FileByte, ByteAt, Filled, BlockOf;
      var iob := new Byte[BLOCK];
      var lba := MapBlock(i);
      ReadSectors(v, BLOCK / SECTOR, lba, iob);
      Copy(buf, done, iob, from, byteCount);
      FilledMore(v, roots, old(buf[..]), buf[..], p, done, byteCount, i, from);
    }
  }

  /** The lbas of the file's blocks from first up to, but not including, end. */
  ghost function Lbas(v: Volume, roots: Roots, first: nat, end: nat): (s: seq<nat>)
    requires first <= end <= INDIRECT_2_LIMIT + 1
    ensures |s| == end - first
    ensures forall k :: 0 <= k < |s| ==> s[k] == LbaOf(v, roots, first + k)
  {
    if first == end then [] else Lbas(v, roots, first, end - 1) + [LbaOf(v, roots, end - 1)]
  }

  lemma NothingCollected(v: Volume, roots: Roots, first: nat, c: Collector)
    requires first <= INDIRECT_2_LIMIT && c == Collector([], 0, 0, 0)
    ensures Collected(c, Lbas(v, roots, first, first))
  {
  }

  /** The first k bytes are those of the file from position p on. */
  ghost predicate Filled(v: Volume, roots: Roots, b: seq<Byte>, p: nat, k: nat) {
    && k <= |b| && p + k <= FILE_LIMIT
    && forall j :: 0 <= j < k ==> b[j] == FileByte(v, roots, p + j)
  }

  lemma FilledIs(v: Volume, roots: Roots, b: seq<Byte>, p: nat, k: nat)
    requires Filled(v, roots, b, p, k)
    ensures k <= |b| && p + k <= FILE_LIMIT && b == Image(v, Leaves(v, roots))[p..p + k] + b[k..]
  {
    hide FileByte, Image, Leaves;
    var image := Image(v, Leaves(v, roots));
    forall j | 0 <= j < k
      ensures b[j] == image[p + j]
    {
      FileByteIs(v, roots, p + j);
    }
    assert b[..k] == image[p..p + k];
  }

  lemma SameTail(b: seq<Byte>, c: seq<Byte>, k: nat, n: nat)
    requires k <= n <= |b| == |c| && b[k..] == c[k..]
    ensures b[n..] == c[n..]
  {
    assert b[n..] == b[k..][n - k..] && c[n..] == c[k..][n - k..];
  }

  lemma NothingFilled(v: Volume, roots: Roots, b: seq<Byte>, p: nat)
    requires Mapped(v, roots, p / BLOCK)
    ensures Filled(v, roots, b, p, 0)
  {
  }

  lemma FilledMore(v: Volume, roots: Roots, b: seq<Byte>, c: seq<Byte>, p: nat, k: nat, n: nat, i: nat, from: nat)
    requires Filled(v, roots, b, p, k) && k + n <= |c| && |b| == |c|
    requires i <= INDIRECT_2_LIMIT && p + k == BLOCK * i + from && from + n <= BLOCK
    requires forall j :: 0 <= j < k ==> c[j] == b[j]
    requires forall j :: k <= j < k + n ==> c[j] == ByteAt(v, LbaOf(v, roots, i), from + (j - k))
    ensures Filled(v, roots, c, p, k + n)
  {
    hide LbaOf, ByteAt;
    forall j | k <= j < k + n
      ensures c[j] == FileByte(v, roots, p + j)
    {
      var r := from + (j - k);
      assert p + j == BLOCK * i + r;
      assert (p + j) / BLOCK == i && (p + j) % BLOCK == r;
    }
  }

  lemma FilledRun(v: Volume, roots: Roots, b: seq<Byte>, c: seq<Byte>, d: seq<Byte>,
                  p: nat, k: nat, n: nat, base: nat, from: nat)
    requires Filled(v, roots, b, p, k) && k + n <= |c| && |b| == |c| && from + n <= |d| && p + k == base + from
    requires forall j :: 0 <= j < k ==> c[j] == b[j]
    requires forall j :: k <= j < k + n ==> c[j] == d[from + (j - k)]
    requires base + from + n <= FILE_LIMIT
    requires forall j :: from <= j < from + n ==> d[j] == FileByte(v, roots, base + j)
    ensures Filled(v, roots, c, p, k + n)
  {
    hide LbaOf, ByteAt;
    forall j | k <= j < k + n
      ensures c[j] == FileByte(v, roots, p + j)
    {
      var r := from + (j - k);
      assert base + r == p + j && c[j] == d[r];
    }
  }

  lemma LastMapped(v: Volume, roots: Roots, i: nat)
    requires Mapped(v, roots, i)
    ensures i <= INDIRECT_2_LIMIT
  {
  }

  lemma RunsNonEmpty(rs: seq<Run>, lbas: seq<nat>)
    requires Exactly(rs, lbas) && lbas != []
    ensures |rs| > 0
  {
  }

  /** How many bytes of run i are copied, and from where in the DMA buffer. */
  function Portion(len: nat, i: nat, size: nat, firstDataOffset: nat, toRead: nat, done: nat): (int, nat) {
    if i == 0 && size > 1 then (len - firstDataOffset, firstDataOffset)
    else if i == 0 && size == 1 then (toRead, firstDataOffset)
    else if i == size - 1 && len + done > toRead && i > 0 then (toRead - done, 0)
    else (len, 0)
  }

  /** The bytes copied before run i. */
  ghost predicate Reached(rs: seq<Run>, i: nat, firstDataOffset: nat, count: nat, done: nat)
    requires i <= |rs|
  {
    if i == 0 then done == 0
    else if i == |rs| then done == count
    else done + firstDataOffset == BLOCK * |Flatten(rs[..i])|
  }

  /** Every run but the last is wanted to its end, and the last up to the end of the request. */
  lemma PortionFits(rs: seq<Run>, i: nat, lbas: seq<nat>, firstDataOffset: nat, count: nat, done: nat)
    requires Exactly(rs, lbas) && i < |rs| && firstDataOffset < BLOCK && count > 0
    requires BLOCK * (|lbas| - 1) <= firstDataOffset + count - 1 < BLOCK * |lbas|
    requires Reached(rs, i, firstDataOffset, count, done)
    ensures var len := rs[i].sectors * SECTOR;
            var (n, from) := Portion(len, i, |rs|, firstDataOffset, count, done);
            && len <= BLOCK * |lbas| && n >= 0 && from + n <= len && done + n <= count
            && done + firstDataOffset == BLOCK * |Flatten(rs[..i])| + from
            && Reached(rs, i + 1, firstDataOffset, count, done + n)
  {
    hide Flatten;
    FlattenPart(rs, i);
    FlattenNext(rs, i);
    if i == 0 {
      assert |Flatten(rs[..0])| == 0 by { FlattenStart(rs); }
    }
    if i + 1 == |rs| {
      assert rs[..i + 1] == rs;
    } else {
      FlattenPart(rs, i + 1);
    }
  }

  lemma FlattenStart(rs: seq<Run>)
    ensures Flatten(rs[..0]) == []
  {
  }

  /** How much of the next block is wanted. */
  function ChunkSize(toRead: nat, firstDataOffset: nat, later: bool): (r: nat)
    requires firstDataOffset < BLOCK && (later ==> firstDataOffset == 0)
    ensures r == if toRead <= BLOCK - firstDataOffset then toRead else BLOCK - firstDataOffset
  {
    if toRead >= BLOCK then
      if firstDataOffset == 0 || later then BLOCK else BLOCK - firstDataOffset
    else if firstDataOffset == 0 || later then toRead
    else if BLOCK - firstDataOffset > toRead then toRead
    else BLOCK - firstDataOffset
  }
}
