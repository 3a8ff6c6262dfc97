/** Directories of the ext2 file system: add_entry_to_dir, del_dir_entry, num_dir_entry, read_dir_inode and
    the first block of a new directory. */
module Ext2Directory {
  import opened Basics
  import opened Ext2Blocks

  const DIRECTORY: Byte := 2
  const MAX_BLOCKS: nat := 12

  // ------------------------------------------------------------ lists of entries

  /** The inode of the first entry of that name. */
  function Find(es: seq<Entry>, name: seq<Byte>): Option<nat> {
    if es == [] then None else if es[0].name == name then Some(es[0].inode) else Find(es[1..], name)
  }

  predicate Has(es: seq<Entry>, inode: nat) {
    exists k :: 0 <= k < |es| && es[k].inode == inode
  }

  /** The list without the first entry of that inode. */
  function Without(es: seq<Entry>, inode: nat): seq<Entry> {
    if es == [] then [] else if es[0].inode == inode then es[1..] else [es[0]] + Without(es[1..], inode)
  }

  /** The name of the first entry of that inode. */
  function NameOf(es: seq<Entry>, inode: nat): (n: seq<Byte>)
    requires Has(es, inode)
  {
    if es[0].inode == inode then es[0].name
    else
      HasRest(es, inode);
      NameOf(es[1..], inode)
  }

  lemma HasRest(es: seq<Entry>, inode: nat)
    requires Has(es, inode) && es[0].inode != inode
    ensures Has(es[1..], inode)
  {
    var k :| 0 <= k < |es| && es[k].inode == inode;
    assert es[1..][k - 1].inode == inode;
  }

  function Times(es: seq<Entry>, name: seq<Byte>): nat {
    if es == [] then 0 else (if es[0].name == name then 1 else 0) + Times(es[1..], name)
  }

  lemma {:induction false} FindJoin(xs: seq<Entry>, ys: seq<Entry>, name: seq<Byte>)
    ensures Find(xs + ys, name) == if Find(xs, name).Some? then Find(xs, name) else Find(ys, name)
    decreases |xs|
  {
    if xs == [] {
      assert xs + ys == ys;
    } else {
      assert (xs + ys)[1..] == xs[1..] + ys;
      FindJoin(xs[1..], ys, name);
    }
  }

  lemma HasJoin(xs: seq<Entry>, ys: seq<Entry>, inode: nat)
    ensures Has(xs + ys, inode) <==> Has(xs, inode) || Has(ys, inode)
  {
    if Has(xs, inode) {
      var k :| 0 <= k < |xs| && xs[k].inode == inode;
      assert (xs + ys)[k].inode == inode;
    }
    if Has(ys, inode) {
      var k :| 0 <= k < |ys| && ys[k].inode == inode;
      assert (xs + ys)[|xs| + k].inode == inode;
    }
  }

  lemma HasFirst(xs: seq<Entry>, inode: nat)
    ensures Has(xs, inode) <==> xs != [] && (xs[0].inode == inode || Has(xs[1..], inode))
  {
    if xs != [] {
      assert xs == [xs[0]] + xs[1..];
      HasJoin([xs[0]], xs[1..], inode);
    }
  }

  lemma {:induction false} WithoutJoin(xs: seq<Entry>, ys: seq<Entry>, inode: nat)
    ensures Without(xs + ys, inode) == if Has(xs, inode) then Without(xs, inode) + ys else xs + Without(ys, inode)
    decreases |xs|
  {
    hide Has;
    HasFirst(xs, inode);
    if xs == [] {
      assert xs + ys == ys;
    } else {
      assert (xs + ys)[1..] == xs[1..] + ys;
      if xs[0].inode != inode {
        var x, rest, w := [xs[0]], xs[1..], Without(ys, inode);
        WithoutJoin(rest, ys, inode);
        assert Without(xs + ys, inode) == x + Without(rest + ys, inode);
        if Has(rest, inode) {
          Reassociate(x, Without(rest, inode), ys);
        } else {
          Reassociate(x, rest, w);
          assert xs == x + rest;
        }
      }
    }
  }

  /** An entry in the middle, none of its inode before it, is the one taken out. */
  lemma WithoutMiddle(xs: seq<Entry>, e: Entry, ys: seq<Entry>)
    requires !Has(xs, e.inode)
    ensures Without(xs + [e] + ys, e.inode) == xs + ys && Has(xs + [e] + ys, e.inode)
  {
    assert xs + [e] + ys == xs + ([e] + ys);
    WithoutJoin(xs, [e] + ys, e.inode);
    assert ([e] + ys)[1..] == ys;
    assert (xs + [e] + ys)[|xs|] == e;
  }

  // ------------------------------------------------------------ a directory as a map

  /** No name occurs twice; two names may stand for one inode, as in the root directory. */
  ghost predicate DistinctNames(es: seq<Entry>) {
    forall i, j :: 0 <= i < j < |es| ==> es[i].name != es[j].name
  }

  function Mapping(es: seq<Entry>): map<seq<Byte>, nat> {
    if es == [] then map[] else Mapping(es[1..])[es[0].name := es[0].inode]
  }

  /** Looking a name up is looking it up in the map, and the map has as many names as there are entries. */
  lemma {:induction false} Faithful(es: seq<Entry>, name: seq<Byte>)
    ensures Find(es, name) == if name in Mapping(es) then Some(Mapping(es)[name]) else None
    ensures DistinctNames(es) ==> |Mapping(es)| == |es|
    decreases |es|
  {
    if es != [] {
      Faithful(es[1..], name);
      if DistinctNames(es) {
        assert DistinctNames(es[1..]) by {
          assert forall i :: 0 <= i < |es[1..]| ==> es[1..][i] == es[i + 1];
        }
        Faithful(es[1..], es[0].name);
        FindNone(es[1..], es[0].name);
        var m := Mapping(es[1..]);
        assert Mapping(es).Keys == m.Keys + {es[0].name};
        assert |Mapping(es).Keys| == |m.Keys| + 1;
      }
    }
  }

  lemma {:induction false} FindNone(es: seq<Entry>, name: seq<Byte>)
    ensures Find(es, name).None? <==> forall i :: 0 <= i < |es| ==> es[i].name != name
    decreases |es|
  {
    if es != [] {
      FindNone(es[1..], name);
      if es[0].name != name {
        assert forall i :: 0 < i < |es| ==> es[i] == es[1..][i - 1];
        assert forall i :: 0 <= i < |es[1..]| ==> es[1..][i] == es[i + 1];
      }
    }
  }

  /** The new name is found, with the new inode, if and only if no other inode answered to it before. */
  lemma AddFinds(es: seq<Entry>, e: Entry)
    ensures Find(es + [e], e.name) == Some(e.inode) <==> Find(es, e.name) in {None, Some(e.inode)}
  {
    FindJoin(es, [e], e.name);
  }

  lemma AddOthers(es: seq<Entry>, e: Entry, name: seq<Byte>)
    requires name != e.name
    ensures Find(es + [e], name) == Find(es, name)
  {
    FindJoin(es, [e], name);
  }

  /** Adding is updating the map if and only if no other inode has the name, and it keeps names different
      if and only if the name is new. */
  lemma AddIsUpdate(es: seq<Entry>, e: Entry)
    ensures Mapping(es + [e]) == Mapping(es)[e.name := e.inode] <==> Find(es, e.name) in {None, Some(e.inode)}
    ensures DistinctNames(es + [e]) <==> DistinctNames(es) && Find(es, e.name).None?
  {
    hide Mapping, Find;
    var m, m' := Mapping(es)[e.name := e.inode], Mapping(es + [e]);
    Faithful(es + [e], e.name);
    AddFinds(es, e);
    AddedFound(es, e);
    forall n | n != e.name
      ensures n in m <==> n in m'
      ensures n in m ==> m[n] == m'[n]
    {
      Faithful(es, n);
      Faithful(es + [e], n);
      AddOthers(es, e, n);
    }
    if m'[e.name] == e.inode { assert m' == m; }
    AddedDistinct(es, e);
  }

  lemma AddedFound(es: seq<Entry>, e: Entry)
    ensures Find(es + [e], e.name).Some?
  {
    FindJoin(es, [e], e.name);
  }

  lemma AddedDistinct(es: seq<Entry>, e: Entry)
    ensures DistinctNames(es + [e]) <==> DistinctNames(es) && Find(es, e.name).None?
  {
    FindNone(es, e.name);
    assert forall i :: 0 <= i < |es| ==> (es + [e])[i] == es[i];
    if DistinctNames(es + [e]) {
      assert (es + [e])[|es|] == e;
    }
  }

  lemma {:induction false} DeleteOthers(es: seq<Entry>, inode: nat, name: seq<Byte>)
    requires Has(es, inode) && name != NameOf(es, inode)
    ensures Find(Without(es, inode), name) == Find(es, name)
    decreases |es|
  {
    if es[0].inode != inode {
      HasRest(es, inode);
      DeleteOthers(es[1..], inode, name);
      assert ([es[0]] + Without(es[1..], inode))[1..] == Without(es[1..], inode);
    }
  }

  lemma {:induction false} DeleteTimes(es: seq<Entry>, inode: nat)
    requires Has(es, inode)
    ensures Times(es, NameOf(es, inode)) == Times(Without(es, inode), NameOf(es, inode)) + 1
    decreases |es|
  {
    if es[0].inode != inode {
      HasRest(es, inode);
      DeleteTimes(es[1..], inode);
      assert ([es[0]] + Without(es[1..], inode))[1..] == Without(es[1..], inode);
    }
  }

  lemma {:induction false} TimesNone(es: seq<Entry>, name: seq<Byte>)
    ensures Times(es, name) == 0 <==> Find(es, name).None?
    decreases |es|
  {
    if es != [] {
      TimesNone(es[1..], name);
    }
  }

  /** A name is gone after its inode's entry was deleted if and only if that entry carried the name and no
      other did; with two names for one inode the wrong one may go. */
  lemma DeleteFinds(es: seq<Entry>, name: seq<Byte>, inode: nat)
    requires Find(es, name) == Some(inode) && Has(es, inode)
    ensures Find(Without(es, inode), name).None? <==> NameOf(es, inode) == name && Times(es, name) == 1
  {
    if NameOf(es, inode) == name {
      DeleteTimes(es, inode);
      TimesNone(Without(es, inode), name);
    } else {
      DeleteOthers(es, inode, name);
    }
  }

  lemma SecondNameStays()
    ensures var es := [Entry([97], 5, 1), Entry([98], 5, 1)];
            Find(es, [98]) == Some(5) && Find(Without(es, 5), [98]) == Some(5) && Find(Without(es, 5), [97]).None?
  {
    var es := [Entry([97], 5, 1), Entry([98], 5, 1)];
    assert es[1..] == [Entry([98], 5, 1)];
    assert Find(es[1..], [98]) == Some(5);
    assert es[1..][1..] == [];
  }

  /** Deleting is removing the name from the map if and only if no other entry carries it; it keeps names
      different, and where they are different it always removes the name. */
  lemma DeleteIsRemoval(es: seq<Entry>, inode: nat)
    requires Has(es, inode)
    ensures Mapping(Without(es, inode)) == Mapping(es) - {NameOf(es, inode)} <==> Times(es, NameOf(es, inode)) == 1
    ensures DistinctNames(es) ==> DistinctNames(Without(es, inode)) && Times(es, NameOf(es, inode)) == 1
  {
    hide Mapping, Without, Find, DistinctNames, NameOf, Times;
    var name := NameOf(es, inode);
    var m, m' := Mapping(es) - {name}, Mapping(Without(es, inode));
    DeleteTimes(es, inode);
    TimesNone(Without(es, inode), name);
    forall n
      ensures n != name ==> (n in m <==> n in m')
      ensures n in m && n != name ==> m[n] == m'[n]
      ensures name in m' <==> Times(es, name) != 1
    {
      Faithful(Without(es, inode), name);
      Faithful(es, n);
      Faithful(Without(es, inode), n);
      if n != name { DeleteOthers(es, inode, n); }
    }
    if DistinctNames(es) {
      DistinctOnce(es, name);
      DeleteDistinct(es, inode);
    }
  }

  lemma {:induction false} DistinctOnce(es: seq<Entry>, name: seq<Byte>)
    requires DistinctNames(es)
    ensures Times(es, name) <= 1
    decreases |es|
  {
    if es != [] {
      assert forall i :: 0 <= i < |es[1..]| ==> es[1..][i] == es[i + 1];
      DistinctOnce(es[1..], name);
      if es[0].name == name {
        FindNone(es[1..], name);
        TimesNone(es[1..], name);
      }
    }
  }

  lemma DeleteDistinct(es: seq<Entry>, inode: nat)
    requires DistinctNames(es) && Has(es, inode)
    ensures DistinctNames(Without(es, inode))
  {
    hide Without, NameOf;
    var k := Position(es, inode);
    assert es == es[..k] + [es[k]] + es[k + 1..];
    WithoutMiddle(es[..k], es[k], es[k + 1..]);
  }

  lemma {:induction false} Position(es: seq<Entry>, inode: nat) returns (k: nat)
    requires Has(es, inode)
    ensures k < |es| && es[k].inode == inode && es[k].name == NameOf(es, inode) && !Has(es[..k], inode)
    decreases |es|
  {
    if es[0].inode == inode {
      k := 0;
    } else {
      HasRest(es, inode);
      var j := Position(es[1..], inode);
      k := j + 1;
      assert es[..k] == [es[0]] + es[1..][..j];
      HasJoin([es[0]], es[1..][..j], inode);
    }
  }

  /** Deleting what was just added gives the directory back, if the inode had no entry before. */
  lemma AddThenDelete(es: seq<Entry>, e: Entry)
    requires !Has(es, e.inode)
    ensures Without(es + [e], e.inode) == es
  {
    WithoutMiddle(es, e, []);
    assert es + [e] + [] == es + [e];
  }

  // ------------------------------------------------------------ the blocks of a directory

  ghost predicate AllTiled(bs: seq<Block>) {
    forall i :: 0 <= i < |bs| ==> Tiled(bs[i])
  }

  /** The entries in use, block after block. */
  ghost function All(bs: seq<Block>): seq<Entry>
    requires AllTiled(bs)
  {
    if bs == [] then [] else Entries(bs[0]) + All(bs[1..])
  }

  lemma {:induction false} AllJoin(xs: seq<Block>, ys: seq<Block>)
    requires AllTiled(xs) && AllTiled(ys)
    ensures AllTiled(xs + ys) && All(xs + ys) == All(xs) + All(ys)
    decreases |xs|
  {
    hide Tiled, Entries;
    if xs == [] {
      assert xs + ys == ys;
    } else {
      assert (xs + ys)[1..] == xs[1..] + ys;
      AllJoin(xs[1..], ys);
    }
  }

  lemma AllSplit(bs: seq<Block>, j: nat)
    requires AllTiled(bs) && j < |bs|
    ensures AllTiled(bs[..j]) && AllTiled(bs[j + 1..])
    ensures All(bs) == All(bs[..j]) + Entries(bs[j]) + All(bs[j + 1..])
  {
    hide Tiled, Entries;
    var front, rest, back := bs[..j], bs[j..], bs[j + 1..];
    AllJoin(front, rest);
    assert bs == front + rest;
    assert rest[0] == bs[j] && rest[1..] == back;
    Reassociate(All(front), Entries(bs[j]), All(back));
  }

  lemma AllReplace(bs: seq<Block>, j: nat, c: Block)
    requires AllTiled(bs) && j < |bs| && Tiled(c)
    ensures AllTiled(bs[j := c])
    ensures All(bs[j := c]) == All(bs[..j]) + Entries(c) + All(bs[j + 1..])
  {
    hide Tiled, Entries;
    var ds := bs[j := c];
    AllSplit(ds, j);
    assert ds[..j] == bs[..j] && ds[j + 1..] == bs[j + 1..];
  }

  lemma AllOne(b: Block)
    requires Tiled(b)
    ensures AllTiled([b]) && All([b]) == Entries(b)
  {
    hide Tiled, Entries;
    assert All([b][1..]) == [];
  }

  lemma AllNext(bs: seq<Block>, j: nat)
    requires AllTiled(bs) && j < |bs|
    ensures AllTiled(bs[..j]) && AllTiled(bs[..j + 1]) && All(bs[..j + 1]) == All(bs[..j]) + Entries(bs[j])
  {
    hide Tiled, Entries;
    AllOne(bs[j]);
    AllJoin(bs[..j], [bs[j]]);
    assert bs[..j + 1] == bs[..j] + [bs[j]];
  }

  /** Some entry follows the record at o. */
  lemma ChainNext(b: Block, o: nat)
    requires Chain(b, 0, o) && Chain(b, o, BLOCK) && o < BLOCK
    ensures Record(b, o)
    ensures var n := o + RecLen(b, o);
            Chain(b, 0, n) && Chain(b, n, BLOCK) && n > o && Live(b, 0, n) == Live(b, 0, o) + One(b, o)
  {
    hide One;
    ChainOne(b, o);
    ChainJoin(b, 0, o, o + RecLen(b, o));
  }

  lemma TiledEntries(b: Block, o: nat)
    requires Chain(b, 0, o) && Chain(b, o, BLOCK)
    ensures Tiled(b) && Entries(b) == Live(b, 0, o) + Live(b, o, BLOCK)
  {
    ChainJoin(b, 0, o, BLOCK);
  }

  // ------------------------------------------------------------ a new directory

  const DOT: seq<Byte> := [46]
  const DOT_DOT: seq<Byte> := [46, 46]

  /** _mkdir stores only the low sixteen bits of the two inode numbers. */
  function Low16(inode: nat): nat {
    inode % 65536
  }

  function Optional(name: seq<Byte>, inode: nat): seq<Entry> {
    if inode != 0 then [Entry(name, inode, DIRECTORY)] else []
  }

  function Dots(self: nat, parent: nat): seq<Entry> {
    Optional(DOT, Low16(self)) + Optional(DOT_DOT, Low16(parent))
  }

  /** The two entries name the directory and its parent if and only if the numbers fit in sixteen bits. */
  lemma DotsFound(self: nat, parent: nat)
    requires self > 0 && parent > 0
    ensures Find(Dots(self, parent), DOT) == Some(self) <==> self < 65536
    ensures Find(Dots(self, parent), DOT_DOT) == Some(parent) <==> parent < 65536
  {
    FindJoin(Optional(DOT, Low16(self)), Optional(DOT_DOT, Low16(parent)), DOT);
    FindJoin(Optional(DOT, Low16(self)), Optional(DOT_DOT, Low16(parent)), DOT_DOT);
    assert |DOT| != |DOT_DOT|;
  }

  /** A directory with inode 65538: its dot entry names inode 2, the root. */
  lemma DotNamesRoot(parent: nat)
    ensures Find(Dots(65538, parent), DOT) == Some(2)
  {
    FindJoin(Optional(DOT, Low16(65538)), Optional(DOT_DOT, Low16(parent)), DOT);
  }

  method FirstBlock(self: nat, parent: nat) returns (c: Block)
    ensures Tiled(c) && Entries(c) == Dots(self, parent)
  {
    hide Store;
    var a := new Byte[BLOCK](_ => 0);
    ghost var b: Block := a[..];
    PutRecord(a, 0, Low16(self), 12, DOT, DIRECTORY);
    StoreRecord(b, 0, Low16(self), 12, DOT, DIRECTORY);
    ghost var m: Block := a[..];
    PutRecord(a, 12, Low16(parent), 1012, DOT_DOT, DIRECTORY);
    StoreRecord(m, 12, Low16(parent), 1012, DOT_DOT, DIRECTORY);
    c := a[..];
    ChainOne(m, 0);
    ChainFrame(m, c, 0, 12);
    ChainOne(c, 12);
    ChainJoin(c, 0, 12, BLOCK);
  }

  // ------------------------------------------------------------ the code

  /** READ of a block into a buffer. */
  method ReadBlock(b: Block) returns (a: array<Byte>)
    ensures fresh(a) && a.Length == BLOCK && a[..] == b
  {
    a := new Byte[BLOCK](k requires 0 <= k < BLOCK => b[k]);
  }

  method PutLen(a: array<Byte>, o: nat, len: nat)
    requires a.Length == BLOCK && o + 8 <= BLOCK && len <= BLOCK
    modifies a
    ensures a[..] == SetLen(old(a[..]), o, len)
  {
    a[o + 4] := (len % 256) as Byte;
    a[o + 5] := (len / 256) as Byte;
  }

  method ClearInode(a: array<Byte>, o: nat)
    requires a.Length == BLOCK && o + 8 <= BLOCK
    modifies a
    ensures a[..] == Cleared(old(a[..]), o)
  {
    a[o] := 0;
    a[o + 1] := 0;
    a[o + 2] := 0;
    a[o + 3] := 0;
  }

  method PutRecord(a: array<Byte>, o: nat, inode: nat, len: nat, name: seq<Byte>, fileType: Byte)
    requires a.Length == BLOCK && inode < 0x1_0000_0000 && len <= BLOCK && |name| < 256 && o + 8 + |name| <= BLOCK
    modifies a
    ensures a[..] == Store(old(a[..]), o, inode, len, name, fileType)
  {
    ghost var b := a[..];
    var h := Header(inode, len, |name|, fileType);
    CopyIn(a, o, h);
    Spliced(b, o, h, name);
    CopyIn(a, o + 8, name);
  }

  lemma Spliced(b: seq<Byte>, o: nat, h: seq<Byte>, name: seq<Byte>)
    requires o + |h| + |name| <= |b|
    ensures var c := b[..o] + h + b[o + |h|..];
            c[..o + |h|] == b[..o] + h && c[o + |h| + |name|..] == b[o + |h| + |name|..]
  {
  }

  /** The walk of add_entry_to_dir to the record that ends the block. */
  method LastRecord(a: array<Byte>) returns (e: nat)
    requires a.Length == BLOCK && Tiled(a[..])
    ensures IsLast(a[..], e)
  {
    ghost var b: Block := a[..];
    e := 0;
    ChainNext(b, 0);
    var recLen := Word(a[4], a[5]);
    while e + recLen != BLOCK
      invariant e < BLOCK && Chain(b, 0, e) && Chain(b, e, BLOCK) && Record(b, e) && recLen == RecLen(b, e)
      decreases BLOCK - e
    {
      hide One, Live;
      ChainNext(b, e);
      e := e + recLen;
      ChainNext(b, e);
      recLen := Word(a[e + 4], a[e + 5]);
    }
  }

  lemma RoomAt(b: Block, e: nat, n: nat)
    requires IsLast(b, e)
    ensures e + 8 <= BLOCK && (HasRoom(b, n) <==> e + Padded(8 + NameLen(b, e)) + n <= BLOCK)
  {
    hide Padded, Chain, Live;
    if HasRoom(b, n) {
      var f: nat :| IsLast(b, f) && f + Padded(8 + NameLen(b, f)) + n <= BLOCK;
      OneLast(b, 0, e, f);
    }
  }

  class Directory {
    var blocks: seq<Block>
    var size: nat
    var linksCount: nat
    var sectors: nat

    /** One to twelve direct blocks, each tiled by its records. */
    ghost predicate Valid()
      reads this
    {
      && 1 <= |blocks| <= MAX_BLOCKS && AllTiled(blocks)
      && size == BLOCK * |blocks| && sectors == 2 * |blocks|
    }

    ghost function Contents(): seq<Entry>
      reads this
      requires Valid()
    {
      All(blocks)
    }

    /** The inode and first block that _mkdir makes. */
    constructor (self: nat, parent: nat)
      ensures Valid() && Contents() == Dots(self, parent) && linksCount == 2
    {
      var c := FirstBlock(self, parent);
      blocks, size, sectors, linksCount := [c], BLOCK, 2, 2;
      AllOne(c);
    }

    /** add_entry_to_dir: behind the last record of the last block, or in a new block of its own. */
    method Add(name: seq<Byte>, inode: nat, fileType: Byte) returns (ok: bool)
      requires Valid() && 0 < inode < 0x1_0000_0000 && |name| < 256
      modifies this
      ensures Valid()
      ensures ok <==> HasRoom(old(blocks[|blocks| - 1]), Padded(8 + |name|)) || |old(blocks)| + 1 < MAX_BLOCKS
      ensures ok ==> Contents() == old(Contents()) + [Entry(name, inode, fileType)]
      ensures !ok ==> blocks == old(blocks)
      ensures linksCount == old(linksCount) + if ok && fileType == DIRECTORY then 1 else 0
      ensures |blocks| == |old(blocks)| + if ok && !HasRoom(old(blocks[|blocks| - 1]), Padded(8 + |name|)) then 1 else 0
    {
      hide Chain, Live, Tiled, Entries, All, HasRoom;
      var i := |blocks|;
      var a := ReadBlock(blocks[i - 1]);
      var e := LastRecord(a);
      RoomAt(a[..], e, NewLen(name));
      var nameLen := a[e + 6] as nat;
      var free := BLOCK - e - Padded(8 + nameLen);
      ok := true;
      if free >= NewLen(name) {
        AddToLast(a, e, name, inode, fileType);
      } else if i + 1 < MAX_BLOCKS {
        AddBlock(name, inode, fileType);
      } else {
        return false;
      }
      if fileType == DIRECTORY {
        linksCount := linksCount + 1;
      }
    }

    method AddToLast(a: array<Byte>, e: nat, name: seq<Byte>, inode: nat, fileType: Byte)
      requires Valid() && 0 < inode < 0x1_0000_0000 && |name| < 256
      requires a.Length == BLOCK && a[..] == blocks[|blocks| - 1] && Chain(a[..], 0, e)
      requires Record(a[..], e) && e + RecLen(a[..], e) == BLOCK && NewLen(name) <= SpareAt(a[..], e)
      modifies a, this`blocks
      ensures Valid() && |blocks| == |old(blocks)|
      ensures Contents() == old(Contents()) + [Entry(name, inode, fileType)]
    {
      hide Chain, Live, Tiled, Entries, Added, Record, RecLen, SpareAt, NewLen;
      var last := |blocks| - 1;
      AllSplit(blocks, last);
      AddedEntries(a[..], e, inode, name, fileType);
      AppendInPlace(a, e, inode, name, fileType);
      AllReplace(blocks, last, a[..]);
      blocks := blocks[last := a[..]];
    }

    method AddBlock(name: seq<Byte>, inode: nat, fileType: Byte)
      requires Valid() && 0 < inode < 0x1_0000_0000 && |name| < 256 && |blocks| + 1 < MAX_BLOCKS
      modifies this`blocks, this`size, this`sectors
      ensures Valid() && |blocks| == |old(blocks)| + 1
      ensures Contents() == old(Contents()) + [Entry(name, inode, fileType)]
    {
      hide Chain, Live, Tiled, Entries;
      var c := NewBlock(name, inode, fileType);
      AllOne(c);
      AllJoin(blocks, [c]);
      blocks := blocks + [c];
      size := size + BLOCK;
      sectors := sectors + 2;
    }

    /** read_dir_inode: the inode number of the first entry in use with that name. */
    method Lookup(name: seq<Byte>) returns (r: Option<nat>)
      requires Valid()
      ensures r == Find(Contents(), name)
    {
      hide Chain, Live, Tiled, Entries;
      var j := 0;
      while j < |blocks|
        invariant 0 <= j <= |blocks| && AllTiled(blocks[..j]) && Find(All(blocks[..j]), name).None?
      {
        AllSplit(blocks, j);
        AllNext(blocks, j);
        FindJoin(All(blocks[..j]), Entries(blocks[j]), name);
        FindJoin(All(blocks[..j]) + Entries(blocks[j]), All(blocks[j + 1..]), name);
        var a := ReadBlock(blocks[j]);
        r := LookupIn(a, name);
        if r.Some? {
          return;
        }
        j := j + 1;
      }
      assert blocks[..j] == blocks;
      r := None;
    }

    /** num_dir_entry: the number of entries in use. */
    method Count() returns (n: nat)
      requires Valid()
      ensures n == |Contents()|
    {
      hide Chain, Live, Tiled, Entries;
      var j := 0;
      n := 0;
      while j < |blocks|
        invariant 0 <= j <= |blocks| && AllTiled(blocks[..j]) && n == |All(blocks[..j])|
      {
        AllNext(blocks, j);
        var a := ReadBlock(blocks[j]);
        var m := CountIn(a);
        n := n + m;
        j := j + 1;
      }
      assert blocks[..j] == blocks;
    }

    /** del_dir_entry: takes out the first entry in use with that inode number. */
    method Delete(inode: nat) returns (found: bool)
      requires Valid() && inode > 0
      modifies this`blocks
      ensures Valid()
      ensures found <==> Has(old(Contents()), inode)
      ensures found ==> Contents() == Without(old(Contents()), inode)
      ensures !found ==> blocks == old(blocks)
    {
      hide Chain, Live, Tiled, Entries;
      var j := 0;
      while j < |blocks|
        invariant 0 <= j <= |blocks| && blocks == old(blocks) && AllTiled(blocks[..j]) && !Has(All(blocks[..j]), inode)
      {
        AllSplit(blocks, j);
        AllNext(blocks, j);
        var a := ReadBlock(blocks[j]);
        found := DeleteIn(a, inode);
        HasJoin(All(blocks[..j]), Entries(blocks[j]), inode);
        HasJoin(All(blocks[..j]) + Entries(blocks[j]), All(blocks[j + 1..]), inode);
        if found {
          DeletedBlock(blocks, j, a[..], inode);
          blocks := blocks[j := a[..]];
          return;
        }
        j := j + 1;
      }
      assert blocks[..j] == blocks;
      found := false;
    }
  }

  lemma DeletedBlock(bs: seq<Block>, j: nat, c: Block, inode: nat)
    requires AllTiled(bs) && j < |bs| && Tiled(c)
    requires AllTiled(bs[..j]) && !Has(All(bs[..j]), inode)
    requires Has(Entries(bs[j]), inode) && Entries(c) == Without(Entries(bs[j]), inode)
    ensures AllTiled(bs[j := c]) && All(bs[j := c]) == Without(All(bs), inode)
  {
    hide Tiled, Entries, All, Without;
    AllSplit(bs, j);
    AllReplace(bs, j, c);
    var front, es, back := All(bs[..j]), Entries(bs[j]), All(bs[j + 1..]);
    assert front + es + back == front + (es + back);
    WithoutJoin(front, es + back, inode);
    WithoutJoin(es, back, inode);
    assert front + (Without(es, inode) + back) == front + Without(es, inode) + back;
  }

  method LookupIn(a: array<Byte>, name: seq<Byte>) returns (r: Option<nat>)
    requires a.Length == BLOCK && Tiled(a[..])
    ensures r == Find(Entries(a[..]), name)
  {
    hide Chain, Live;
    ghost var b: Block := a[..];
    var next := 0;
    StartOf(b);
    while next < BLOCK
      invariant next <= BLOCK && Chain(b, 0, next) && Chain(b, next, BLOCK) && Find(Live(b, 0, next), name).None?
      decreases BLOCK - next
    {
      ChainNext(b, next);
      FindJoin(Live(b, 0, next), One(b, next), name);
      ghost var n := next + RecLen(b, next);
      TiledEntries(b, n);
      FindJoin(Live(b, 0, n), Live(b, n, BLOCK), name);
      var inode := Double(a[next], a[next + 1], a[next + 2], a[next + 3]);
      var nameLen := a[next + 6] as nat;
      if inode != 0 && nameLen == |name| && a[next + 8..next + 8 + nameLen] == name {
        return Some(inode);
      }
      next := next + Word(a[next + 4], a[next + 5]);
    }
    EndOf(b);
    r := None;
  }

  lemma StartOf(b: Block)
    requires Tiled(b)
    ensures Chain(b, 0, 0) && Chain(b, 0, BLOCK) && Live(b, 0, 0) == []
  {
  }

  lemma EndOf(b: Block)
    requires Chain(b, 0, BLOCK)
    ensures Tiled(b) && Entries(b) == Live(b, 0, BLOCK)
  {
  }

  method CountIn(a: array<Byte>) returns (n: nat)
    requires a.Length == BLOCK && Tiled(a[..])
    ensures n == |Entries(a[..])|
  {
    hide Chain, Live;
    ghost var b: Block := a[..];
    var next := 0;
    n := 0;
    StartOf(b);
    while next < BLOCK
      invariant next <= BLOCK && Chain(b, 0, next) && Chain(b, next, BLOCK) && n == |Live(b, 0, next)|
      decreases BLOCK - next
    {
      ChainNext(b, next);
      var inode := Double(a[next], a[next + 1], a[next + 2], a[next + 3]);
      next := next + Word(a[next + 4], a[next + 5]);
      if inode != 0 {
        n := n + 1;
      }
    }
    EndOf(b);
  }

  /** The end of del_dir_entry: the first record loses its inode, any other is swallowed by the one before. */
  method TakeOut(a: array<Byte>, previous: nat, offset: nat)
    requires a.Length == BLOCK && Chain(a[..], 0, offset) && Record(a[..], offset) && Inode(a[..], offset) != 0
    requires Chain(a[..], offset + RecLen(a[..], offset), BLOCK)
    requires !Has(Live(a[..], 0, offset), Inode(a[..], offset))
    requires offset > 0 ==>
      Chain(a[..], 0, previous) && Record(a[..], previous) && previous + RecLen(a[..], previous) == offset
    modifies a
    ensures old(Tiled(a[..])) && Tiled(a[..])
    ensures Has(old(Entries(a[..])), old(Inode(a[..], offset)))
    ensures Entries(a[..]) == Without(old(Entries(a[..])), old(Inode(a[..], offset)))
  {
    hide Chain, Live, SetLen, Cleared, Tiled, Entries, Without;
    ghost var b: Block := a[..];
    var recLen := Word(a[offset + 4], a[offset + 5]);
    WithoutMiddle(Live(b, 0, offset), One(b, offset)[0], Live(b, offset + recLen, BLOCK));
    if offset == 0 {
      ClearedEntries(b, 0);
      ClearInode(a, 0);
    } else {
      SwallowedEntries(b, previous, offset);
      var previousLen := Word(a[previous + 4], a[previous + 5]);
      PutLen(a, previous, previousLen + recLen);
    }
  }

  method DeleteIn(a: array<Byte>, inode: nat) returns (found: bool)
    requires a.Length == BLOCK && Tiled(a[..]) && inode > 0
    modifies a
    ensures Tiled(a[..])
    ensures found <==> Has(old(Entries(a[..])), inode)
    ensures found ==> Entries(a[..]) == Without(old(Entries(a[..])), inode)
    ensures !found ==> a[..] == old(a[..])
  {
    hide Chain, Live, SetLen, Cleared;
    ghost var b: Block := a[..];
    var offset, previous := 0, 0;
    StartOf(b);
    while offset < BLOCK
      invariant offset <= BLOCK && Chain(b, 0, offset) && Chain(b, offset, BLOCK) && !Has(Live(b, 0, offset), inode)
      invariant offset > 0 ==> Chain(b, 0, previous) && Record(b, previous) && previous + RecLen(b, previous) == offset
      invariant a[..] == b
      decreases BLOCK - offset
    {
      ChainNext(b, offset);
      HasJoin(Live(b, 0, offset), One(b, offset), inode);
      var current := Double(a[offset], a[offset + 1], a[offset + 2], a[offset + 3]);
      var recLen := Word(a[offset + 4], a[offset + 5]);
      if current == inode {
        TakeOut(a, previous, offset);
        return true;
      }
      previous := offset;
      offset := offset + recLen;
    }
    EndOf(b);
    found := false;
  }

  method AppendInPlace(a: array<Byte>, e: nat, inode: nat, name: seq<Byte>, fileType: Byte)
    requires a.Length == BLOCK && Record(a[..], e) && e + RecLen(a[..], e) == BLOCK
    requires 0 < inode < 0x1_0000_0000 && |name| < 256 && NewLen(name) <= SpareAt(a[..], e)
    modifies a
    ensures a[..] == Added(old(a[..]), e, inode, name, fileType)
  {
    hide Store, SetLen, Padded, Added, Record, RecLen, NewLen, SpareAt;
    ghost var b: Block := a[..];
    AddedParts(b, e, inode, name, fileType);
    var nameLen := a[e + 6] as nat;
    var newEntry := e + Padded(8 + nameLen);
    PutLen(a, e, newEntry - e);
    PutRecord(a, newEntry, inode, BLOCK - newEntry, name, fileType);
  }

  method NewBlock(name: seq<Byte>, inode: nat, fileType: Byte) returns (c: Block)
    requires 0 < inode < 0x1_0000_0000 && |name| < 256
    ensures Tiled(c) && Entries(c) == [Entry(name, inode, fileType)]
  {
    hide Store;
    var a := new Byte[BLOCK](_ => 0);
    ghost var b: Block := a[..];
    PutRecord(a, 0, inode, BLOCK, name, fileType);
    StoreRecord(b, 0, inode, BLOCK, name, fileType);
    c := a[..];
    ChainOne(c, 0);
  }
}
