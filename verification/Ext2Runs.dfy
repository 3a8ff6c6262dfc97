/** Runs of directory operations against a finite map from names to inodes. */
module Ext2Runs {
  import opened Basics
  import opened Ext2Blocks
  import opened Ext2Directory

  datatype Op =
    | OpAdd(name: seq<Byte>, inode: nat, fileType: Byte)
    | OpDelete(inode: nat)
    | OpLookup(name: seq<Byte>)
    | OpCount

  datatype Out = Accepted | Full | Deleted | Missing | Found(inode: nat) | Absent | Number(n: nat)

  /** Inode numbers start at one, and only names that are not there are added. */
  ghost predicate Proper(m: map<seq<Byte>, nat>, op: Op) {
    && (op.OpAdd? ==> op.name !in m && |op.name| < 256 && 0 < op.inode < 0x1_0000_0000)
    && (op.OpDelete? ==> op.inode > 0)
  }

  /** What an operation answers, and does to the map from names to inodes. */
  ghost predicate MapStep(m: map<seq<Byte>, nat>, op: Op, out: Out, m': map<seq<Byte>, nat>) {
    match op
    case OpAdd(name, inode, _) => (out.Accepted? && m' == m[name := inode]) || (out.Full? && m' == m)
    case OpDelete(inode) =>
      || (out.Deleted? && exists name :: name in m && m[name] == inode && m' == m - {name})
      || (out.Missing? && inode !in m.Values && m' == m)
    case OpLookup(name) => m' == m && out == if name in m then Found(m[name]) else Absent
    case OpCount => m' == m && out == Number(|m|)
  }

  /** Room behind the last record, or for one more block. */
  ghost predicate Room(bs: seq<Block>, name: seq<Byte>)
    requires bs != []
  {
    HasRoom(bs[|bs| - 1], Padded(8 + |name|)) || |bs| + 1 < MAX_BLOCKS
  }

  /** A directory as seen between two operations: its blocks, and the map they stand for. */
  datatype View = View(blocks: seq<Block>, names: map<seq<Byte>, nat>)

  ghost predicate Shows(v: View) {
    && v.blocks != [] && AllTiled(v.blocks)
    && DistinctNames(All(v.blocks)) && v.names == Mapping(All(v.blocks))
  }

  /** An operation answers as the map does, and an addition finds the directory full if and only if there is
      no room for it. */
  ghost predicate DirStep(v: View, op: Op, out: Out, v': View) {
    && Shows(v) && Shows(v')
    && MapStep(v.names, op, out, v'.names)
    && (op.OpAdd? ==> (out.Full? <==> !Room(v.blocks, op.name)))
  }

  lemma InodesAreValues(es: seq<Entry>, inode: nat)
    requires DistinctNames(es)
    ensures Has(es, inode) <==> inode in Mapping(es).Values
  {
    if Has(es, inode) {
      var k :| 0 <= k < |es| && es[k].inode == inode;
      EntryMapped(es, k);
    }
    if inode in Mapping(es).Values {
      var name :| name in Mapping(es) && Mapping(es)[name] == inode;
      Faithful(es, name);
      FindHas(es, name);
    }
  }

  lemma {:induction false} EntryMapped(es: seq<Entry>, k: nat)
    requires DistinctNames(es) && k < |es|
    ensures es[k].name in Mapping(es) && Mapping(es)[es[k].name] == es[k].inode
    decreases |es|
  {
    if k > 0 {
      assert forall i :: 0 <= i < |es[1..]| ==> es[1..][i] == es[i + 1];
      EntryMapped(es[1..], k - 1);
    }
  }

  lemma {:induction false} FindHas(es: seq<Entry>, name: seq<Byte>)
    requires Find(es, name).Some?
    ensures Has(es, Find(es, name).value)
    decreases |es|
  {
    if es[0].name != name {
      FindHas(es[1..], name);
      HasFirst(es, Find(es, name).value);
    }
  }

  /** Deleting the first entry of an inode takes one of its names out of the map. */
  lemma DeleteStep(es: seq<Entry>, inode: nat)
    requires DistinctNames(es) && Has(es, inode)
    ensures DistinctNames(Without(es, inode))
    ensures exists name :: name in Mapping(es) && Mapping(es)[name] == inode
                           && Mapping(Without(es, inode)) == Mapping(es) - {name}
  {
    hide Mapping, Without, DistinctNames;
    DeleteIsRemoval(es, inode);
    var k := Position(es, inode);
    EntryMapped(es, k);
  }

  ghost function Viewed(d: Directory): View
    requires d.Valid()
    reads d
  {
    View(d.blocks, Mapping(d.Contents()))
  }

  method ServeOne(d: Directory, op: Op) returns (out: Out)
    requires d.Valid() && DistinctNames(d.Contents()) && Proper(Mapping(d.Contents()), op)
    modifies d
    ensures d.Valid() && DistinctNames(d.Contents())
    ensures DirStep(old(Viewed(d)), op, out, Viewed(d))
  {
    hide Tiled, AllTiled, Entries, All, Mapping, Without, Find, HasRoom, NewLen, Padded, DistinctNames, Has;
    ghost var es := d.Contents();
    match op {
      case OpAdd(name, inode, fileType) =>
        Faithful(es, name);
        AddIsUpdate(es, Entry(name, inode, fileType));
        var ok := d.Add(name, inode, fileType);
        out := if ok then Accepted else Full;
      case OpDelete(inode) =>
        InodesAreValues(es, inode);
        var found := d.Delete(inode);
        if found { DeleteStep(es, inode); }
        out := if found then Deleted else Missing;
      case OpLookup(name) =>
        Faithful(es, name);
        var r := d.Lookup(name);
        out := if r.Some? then Found(r.value) else Absent;
      case OpCount =>
        Faithful(es, []);
        var n := d.Count();
        out := Number(n);
    }
  }

  /** Some sequence of views leads through the operations with their answers. */
  ghost predicate DirRun(vs: seq<View>, ops: seq<Op>, outs: seq<Out>) {
    && |vs| == |ops| + 1 && |outs| == |ops|
    && forall k, l :: 0 <= k < |ops| && l == k + 1 ==> DirStep(vs[k], ops[k], outs[k], vs[l])
  }

  /** Whatever map the operations before it have left, each operation of the sequence is proper. */
  ghost predicate AllProper(m: map<seq<Byte>, nat>, ops: seq<Op>)
    decreases |ops|
  {
    ops != [] ==>
      && Proper(m, ops[0])
      && forall out, m' :: MapStep(m, ops[0], out, m') ==> AllProper(m', ops[1..])
  }

  /** Every sequence of additions of new names, deletions, lookups and counts answers as a finite map from
      names to inodes, and additions are refused only for want of room. */
  method Serve(d: Directory, ops: seq<Op>) returns (outs: seq<Out>, ghost vs: seq<View>)
    requires d.Valid() && DistinctNames(d.Contents()) && AllProper(Mapping(d.Contents()), ops)
    modifies d
    ensures d.Valid() && DistinctNames(d.Contents())
    ensures DirRun(vs, ops, outs) && vs[0] == old(Viewed(d)) && vs[|ops|] == Viewed(d)
  {
    hide AllTiled, All, Mapping, DistinctNames, DirStep;
    outs, vs := [], [Viewed(d)];
    var k := 0;
    assert ops[0..] == ops;
    while k < |ops|
      invariant 0 <= k <= |ops| && d.Valid() && DistinctNames(d.Contents())
      invariant AllProper(Mapping(d.Contents()), ops[k..])
      invariant DirRun(vs, ops[..k], outs) && vs[0] == old(Viewed(d)) && vs[k] == Viewed(d)
    {
      assert ops[k..][0] == ops[k] && ops[k..][1..] == ops[k + 1..];
      var out := ServeOne(d, ops[k]);
      StillProper(vs[k], ops[k..], out, Viewed(d));
      outs, vs := outs + [out], vs + [Viewed(d)];
      assert ops[..k + 1] == ops[..k] + [ops[k]];
      k := k + 1;
    }
    assert ops[..k] == ops;
  }

  lemma StillProper(v: View, ops: seq<Op>, out: Out, v': View)
    requires ops != [] && AllProper(v.names, ops) && DirStep(v, ops[0], out, v')
    ensures AllProper(v'.names, ops[1..])
  {
    hide AllTiled, All, Mapping, DistinctNames, Room;
  }
}
