/** One block of an ext2 directory: entries of an inode number, a record length, a name length, a type and
    a name, each record running to the start of the next. */
module Ext2Blocks {
  import opened Basics

  const BLOCK: nat := 1024

  datatype Entry = Entry(name: seq<Byte>, inode: nat, fileType: Byte)

  type Block = b: seq<Byte> | |b| == BLOCK witness seq(BLOCK, _ => 0)

  /** A length with the padding to a multiple of four. */
  function Padded(n: nat): (r: nat)
    ensures n <= r < n + 4 && r % 4 == 0
  {
    n + if n % 4 != 0 then 4 - n % 4 else 0
  }

  // ------------------------------------------------------------ fields of the record at an offset

  function Double(b0: Byte, b1: Byte, b2: Byte, b3: Byte): nat {
    b0 as nat + 256 * b1 as nat + 65536 * b2 as nat + 16777216 * b3 as nat
  }

  function Inode(b: Block, o: nat): nat
    requires o + 8 <= BLOCK
  {
    Double(b[o], b[o + 1], b[o + 2], b[o + 3])
  }

  function RecLen(b: Block, o: nat): nat
    requires o + 8 <= BLOCK
  {
    Word(b[o + 4], b[o + 5])
  }

  function NameLen(b: Block, o: nat): nat
    requires o + 8 <= BLOCK
  {
    b[o + 6] as nat
  }

  function FileType(b: Block, o: nat): Byte
    requires o + 8 <= BLOCK
  {
    b[o + 7]
  }

  /** A record that holds its name and ends inside the block, on a multiple of four. */
  predicate Record(b: Block, o: nat) {
    && o + 8 <= BLOCK
    && RecLen(b, o) % 4 == 0 && 8 + NameLen(b, o) <= RecLen(b, o)
    && o + RecLen(b, o) <= BLOCK
  }

  function Name(b: Block, o: nat): seq<Byte>
    requires Record(b, o)
  {
    b[o + 8..o + 8 + NameLen(b, o)]
  }

  /** The record's entry, if its inode number says it is in use. */
  function One(b: Block, o: nat): seq<Entry>
    requires Record(b, o)
  {
    if Inode(b, o) != 0 then [Entry(Name(b, o), Inode(b, o), FileType(b, o))] else []
  }

  // ------------------------------------------------------------ chains

  /** Records lead from offset o exactly to offset e. */
  ghost predicate Chain(b: Block, o: nat, e: nat)
    decreases e - o
  {
    o == e || (o < e && Record(b, o) && o + RecLen(b, o) <= e && Chain(b, o + RecLen(b, o), e))
  }

  /** The entries in use among those records. */
  ghost function Live(b: Block, o: nat, e: nat): seq<Entry>
    requires Chain(b, o, e)
    decreases e - o
  {
    if o == e then [] else One(b, o) + Live(b, o + RecLen(b, o), e)
  }

  /** The records tile the block. */
  ghost predicate Tiled(b: Block) {
    Chain(b, 0, BLOCK)
  }

  ghost function Entries(b: Block): seq<Entry>
    requires Tiled(b)
  {
    Live(b, 0, BLOCK)
  }

  lemma {:induction false} ChainJoin(b: Block, o: nat, m: nat, e: nat)
    requires Chain(b, o, m) && Chain(b, m, e)
    ensures Chain(b, o, e) && Live(b, o, e) == Live(b, o, m) + Live(b, m, e)
    decreases m - o
  {
    hide One;
    if o < m {
      ChainJoin(b, o + RecLen(b, o), m, e);
    } else {
      assert Live(b, o, m) == [];
    }
  }

  lemma ChainOne(b: Block, o: nat)
    requires Record(b, o)
    ensures Chain(b, o, o + RecLen(b, o)) && Live(b, o, o + RecLen(b, o)) == One(b, o)
  {
    hide One;
    var e := o + RecLen(b, o);
    assert Chain(b, e, e) && Live(b, e, e) == [];
    assert Live(b, o, e) == One(b, o) + [];
  }

  lemma RecordFrame(b: Block, c: Block, o: nat)
    requires Record(b, o) && forall k :: o <= k < o + RecLen(b, o) ==> c[k] == b[k]
    ensures o + 8 <= o + RecLen(b, o) <= BLOCK
    ensures Record(c, o) && RecLen(c, o) == RecLen(b, o) && One(c, o) == One(b, o)
  {
    hide Word, Double;
    assert RecLen(b, o) >= 8 + NameLen(b, o);
    assert c[o] == b[o] && c[o + 1] == b[o + 1] && c[o + 2] == b[o + 2] && c[o + 3] == b[o + 3];
    assert c[o + 4] == b[o + 4] && c[o + 5] == b[o + 5] && c[o + 6] == b[o + 6] && c[o + 7] == b[o + 7];
    assert Name(c, o) == Name(b, o);
  }

  /** Records depend on the bytes they span only. */
  lemma {:induction false} ChainFrame(b: Block, c: Block, o: nat, e: nat)
    requires Chain(b, o, e) && e <= BLOCK
    requires forall k :: o <= k < e ==> c[k] == b[k]
    ensures Chain(c, o, e) && Live(c, o, e) == Live(b, o, e)
    decreases e - o
  {
    hide Record, One, RecLen;
    if o < e {
      RecordFrame(b, c, o);
      ChainFrame(b, c, o + RecLen(b, o), e);
    }
  }

  /** Every record starts on a multiple of four. */
  lemma {:induction false} ChainAligned(b: Block, o: nat, e: nat)
    requires Chain(b, o, e) && o % 4 == 0
    ensures e % 4 == 0
    decreases e - o
  {
    if o < e {
      ChainAligned(b, o + RecLen(b, o), e);
    }
  }

  // ------------------------------------------------------------ stores

  /** The record length is the little-endian word at offset 4. */
  function SetLen(b: Block, o: nat, len: nat): (c: Block)
    requires o + 8 <= BLOCK && len <= BLOCK
    ensures RecLen(c, o) == len && NameLen(c, o) == NameLen(b, o) && Inode(c, o) == Inode(b, o)
    ensures forall k :: 0 <= k < BLOCK && k != o + 4 && k != o + 5 ==> c[k] == b[k]
  {
    b[o + 4 := (len % 256) as Byte][o + 5 := (len / 256) as Byte]
  }

  lemma Bytes(x: nat)
    requires x < 0x1_0000_0000
    ensures x / 16777216 < 256
    ensures x == x % 256 + 256 * (x / 256 % 256) + 65536 * (x / 65536 % 256) + 16777216 * (x / 16777216)
  {
    var y := x / 256;
    var z := y / 256;
    assert z == x / 65536;
    assert z / 256 == x / 16777216;
  }

  function Header(inode: nat, len: nat, nameLen: nat, fileType: Byte): (h: seq<Byte>)
    requires inode < 0x1_0000_0000 && len <= BLOCK && nameLen < 256
    ensures |h| == 8
    ensures Double(h[0], h[1], h[2], h[3]) == inode && Word(h[4], h[5]) == len && h[6] as nat == nameLen
    ensures h[7] == fileType
  {
    Bytes(inode);
    [(inode % 256) as Byte, (inode / 256 % 256) as Byte, (inode / 65536 % 256) as Byte, (inode / 16777216) as Byte,
     (len % 256) as Byte, (len / 256) as Byte, nameLen as Byte, fileType]
  }

  /** A whole record written at offset o. */
  function Store(b: Block, o: nat, inode: nat, len: nat, name: seq<Byte>, fileType: Byte): (c: Block)
    requires inode < 0x1_0000_0000 && len <= BLOCK && |name| < 256 && o + 8 + |name| <= BLOCK
  {
    b[..o] + Header(inode, len, |name|, fileType) + name + b[o + 8 + |name|..]
  }

  lemma StoreRecord(b: Block, o: nat, inode: nat, len: nat, name: seq<Byte>, fileType: Byte)
    requires inode < 0x1_0000_0000 && len <= BLOCK && |name| < 256 && o + 8 + |name| <= BLOCK
    requires len % 4 == 0 && 8 + |name| <= len && o + len <= BLOCK
    ensures var c := Store(b, o, inode, len, name, fileType);
            && Record(c, o) && RecLen(c, o) == len && One(c, o) == (if inode != 0 then [Entry(name, inode, fileType)] else [])
            && forall k :: 0 <= k < o ==> c[k] == b[k]
  {
    var h := Header(inode, len, |name|, fileType);
    var c := Store(b, o, inode, len, name, fileType);
    assert c[o..o + 8] == h;
    assert forall k :: 0 <= k < 8 ==> c[o + k] == h[k];
    assert c[o + 0] == h[0] && c[o + 1] == h[1] && c[o + 2] == h[2] && c[o + 3] == h[3];
    assert c[o + 4] == h[4] && c[o + 5] == h[5] && c[o + 6] == h[6] && c[o + 7] == h[7];
    assert c[o + 8..o + 8 + |name|] == name;
  }

  // ------------------------------------------------------------ adding behind the last record

  /** The record at offset e is the last one of the block. */
  ghost predicate IsLast(b: Block, e: nat) {
    Chain(b, 0, e) && Record(b, e) && e + RecLen(b, e) == BLOCK
  }

  /** The last record's name, padded, leaves that many bytes behind it. */
  ghost predicate HasRoom(b: Block, n: nat) {
    exists e: nat :: IsLast(b, e) && e + Padded(8 + NameLen(b, e)) + n <= BLOCK
  }

  lemma {:induction false} OneLast(b: Block, o: nat, e: nat, f: nat)
    requires Chain(b, o, e) && Record(b, e) && e + RecLen(b, e) == BLOCK
    requires Chain(b, o, f) && Record(b, f) && f + RecLen(b, f) == BLOCK
    ensures e == f
    decreases e - o
  {
    if o < e && o < f {
      OneLast(b, o + RecLen(b, o), e, f);
    }
  }

  function SpareAt(b: Block, o: nat): nat
    requires Record(b, o)
  {
    BLOCK - o - Padded(8 + NameLen(b, o))
  }

  function NewLen(name: seq<Byte>): nat {
    Padded(8 + |name|)
  }

  /** The block after the last record, at offset e, has been cut short and a new one stored behind it. */
  function Added(b: Block, e: nat, inode: nat, name: seq<Byte>, fileType: Byte): (c: Block)
    requires Record(b, e) && e + RecLen(b, e) == BLOCK
    requires 0 < inode < 0x1_0000_0000 && |name| < 256 && NewLen(name) <= SpareAt(b, e)
  {
    var used := Padded(8 + NameLen(b, e));
    Store(SetLen(b, e, used), e + used, inode, BLOCK - e - used, name, fileType)
  }

  lemma AddedParts(b: Block, e: nat, inode: nat, name: seq<Byte>, fileType: Byte)
    requires Record(b, e) && e + RecLen(b, e) == BLOCK
    requires 0 < inode < 0x1_0000_0000 && |name| < 256 && NewLen(name) <= SpareAt(b, e)
    ensures e + 8 <= BLOCK
    ensures var used := Padded(8 + NameLen(b, e));
            && e + used + 8 + |name| <= BLOCK
            && Added(b, e, inode, name, fileType)
               == Store(SetLen(b, e, used), e + used, inode, BLOCK - (e + used), name, fileType)
  {
    hide Store, SetLen, Padded;
    PaddedFacts(8 + NameLen(b, e));
    PaddedFacts(8 + |name|);
  }

  lemma AddedEntries(b: Block, e: nat, inode: nat, name: seq<Byte>, fileType: Byte)
    requires Chain(b, 0, e) && Record(b, e) && e + RecLen(b, e) == BLOCK
    requires 0 < inode < 0x1_0000_0000 && |name| < 256 && NewLen(name) <= SpareAt(b, e)
    ensures Tiled(b)
    ensures var c := Added(b, e, inode, name, fileType);
            Tiled(c) && Entries(c) == Entries(b) + [Entry(name, inode, fileType)]
  {
    hide One, Padded, Added, Record;
    var used := Padded(8 + NameLen(b, e));
    var c := Added(b, e, inode, name, fileType);
    AddedRecords(b, e, inode, name, fileType);
    ChainOne(b, e);
    ChainJoin(b, 0, e, BLOCK);
    ChainJoin(c, 0, e, e + used);
    ChainJoin(c, 0, e + used, BLOCK);
  }

  lemma AddedRecords(b: Block, e: nat, inode: nat, name: seq<Byte>, fileType: Byte)
    requires Chain(b, 0, e) && Record(b, e) && e + RecLen(b, e) == BLOCK
    requires 0 < inode < 0x1_0000_0000 && |name| < 256 && NewLen(name) <= SpareAt(b, e)
    ensures var c := Added(b, e, inode, name, fileType);
            var n := e + Padded(8 + NameLen(b, e));
            && Chain(c, 0, e) && Live(c, 0, e) == Live(b, 0, e)
            && Chain(c, e, n) && Live(c, e, n) == One(b, e)
            && Chain(c, n, BLOCK) && Live(c, n, BLOCK) == [Entry(name, inode, fileType)]
  {
    hide Store, One, Padded, Live, Chain;
    PaddedFacts(8 + NameLen(b, e));
    PaddedFacts(8 + |name|);
    var used := Padded(8 + NameLen(b, e));
    var m := SetLen(b, e, used);
    var c := Added(b, e, inode, name, fileType);
    ChainAligned(b, 0, e);
    StoreRecord(m, e + used, inode, BLOCK - e - used, name, fileType);
    ChainFrame(b, c, 0, e);
    CutRecord(b, m, c, e, used);
    ChainOne(c, e);
    ChainOne(c, e + used);
  }

  lemma CutRecord(b: Block, m: Block, c: Block, e: nat, used: nat)
    requires Record(b, e) && used == Padded(8 + NameLen(b, e)) && e + used <= BLOCK && m == SetLen(b, e, used)
    requires forall k :: 0 <= k < e + used ==> c[k] == m[k]
    ensures Record(c, e) && RecLen(c, e) == used && One(c, e) == One(b, e)
  {
    hide Padded;
    assert c[e] == b[e] && c[e + 1] == b[e + 1] && c[e + 2] == b[e + 2] && c[e + 3] == b[e + 3];
    assert c[e + 4] == m[e + 4] && c[e + 5] == m[e + 5] && c[e + 6] == b[e + 6] && c[e + 7] == b[e + 7];
    assert used % 4 == 0 && used >= 8 + NameLen(b, e) by { PaddedFacts(8 + NameLen(b, e)); }
    assert Name(c, e) == Name(b, e);
  }

  lemma PaddedFacts(n: nat)
    ensures n <= Padded(n) < n + 4 && Padded(n) % 4 == 0
  {
  }

  // ------------------------------------------------------------ taking a record out

  /** A record inside the block is swallowed by the one before it. */
  lemma SwallowedEntries(b: Block, p: nat, o: nat)
    requires Chain(b, 0, p) && Record(b, p) && p + RecLen(b, p) == o && Record(b, o)
    requires Chain(b, o + RecLen(b, o), BLOCK)
    ensures Tiled(b)
    ensures var c := SetLen(b, p, RecLen(b, p) + RecLen(b, o));
            var n := o + RecLen(b, o);
            && Chain(b, 0, o) && Chain(b, o, BLOCK)
            && Entries(b) == Live(b, 0, o) + One(b, o) + Live(b, n, BLOCK)
            && Tiled(c) && Entries(c) == Live(b, 0, o) + Live(b, n, BLOCK)
  {
    hide One;
    var n := o + RecLen(b, o);
    var c := SetLen(b, p, RecLen(b, p) + RecLen(b, o));
    SwallowedRecord(b, p, o);
    ChainOne(b, p);
    ChainOne(b, o);
    ChainJoin(b, 0, p, o);
    ChainJoin(b, 0, o, n);
    ChainJoin(b, o, n, BLOCK);
    ChainJoin(b, 0, n, BLOCK);
    ChainJoin(c, 0, p, n);
    ChainJoin(c, 0, n, BLOCK);
  }

  lemma SameName(b: Block, c: Block, p: nat)
    requires Record(b, p) && Record(c, p) && NameLen(c, p) == NameLen(b, p)
    requires forall k :: p + 6 <= k < BLOCK ==> c[k] == b[k]
    ensures Name(c, p) == Name(b, p)
  {
  }

  lemma SwallowedRecord(b: Block, p: nat, o: nat)
    requires Chain(b, 0, p) && Record(b, p) && p + RecLen(b, p) == o && Record(b, o)
    requires Chain(b, o + RecLen(b, o), BLOCK)
    ensures var c := SetLen(b, p, RecLen(b, p) + RecLen(b, o));
            var n := o + RecLen(b, o);
            && Chain(c, 0, p) && Live(c, 0, p) == Live(b, 0, p)
            && Chain(c, n, BLOCK) && Live(c, n, BLOCK) == Live(b, n, BLOCK)
            && Chain(c, p, n) && Live(c, p, n) == One(b, p)
  {
    hide Chain, Live, SetLen;
    var n := o + RecLen(b, o);
    var c := SetLen(b, p, RecLen(b, p) + RecLen(b, o));
    ChainFrame(b, c, 0, p);
    ChainFrame(b, c, n, BLOCK);
    SameName(b, c, p);
    ChainOne(c, p);
  }

  /** One byte changed. */
  function Poke(b: Block, k: nat, v: Byte): (c: Block)
    requires k < BLOCK
    ensures c[k] == v
    ensures forall i :: 0 <= i < BLOCK && i != k ==> c[i] == b[i]
  {
    b[k := v]
  }

  /** A record keeps its place and loses its inode number. */
  function Cleared(b: Block, o: nat): (c: Block)
    requires o + 8 <= BLOCK
  {
    Poke(Poke(Poke(Poke(b, o, 0), o + 1, 0), o + 2, 0), o + 3, 0)
  }

  lemma ClearedFields(b: Block, o: nat)
    requires o + 8 <= BLOCK
    ensures var c := Cleared(b, o);
            && (forall k :: 0 <= k < BLOCK && !(o <= k < o + 4) ==> c[k] == b[k])
            && RecLen(c, o) == RecLen(b, o) && NameLen(c, o) == NameLen(b, o) && Inode(c, o) == 0
  {
    hide Poke, Double, Word;
    assert Double(0, 0, 0, 0) == 0 by { ZeroDouble(); }
  }

  lemma ZeroDouble()
    ensures Double(0, 0, 0, 0) == 0
  {
  }

  lemma EntriesAround(b: Block, o: nat)
    requires Chain(b, 0, o) && Record(b, o) && Chain(b, o + RecLen(b, o), BLOCK)
    ensures var n := o + RecLen(b, o);
            Tiled(b) && Entries(b) == Live(b, 0, o) + One(b, o) + Live(b, n, BLOCK)
  {
    hide One;
    var n := o + RecLen(b, o);
    ChainOne(b, o);
    ChainJoin(b, 0, o, n);
    ChainJoin(b, 0, n, BLOCK);
  }

  lemma ClearedEntries(b: Block, o: nat)
    requires Chain(b, 0, o) && Record(b, o) && Chain(b, o + RecLen(b, o), BLOCK)
    ensures var c := Cleared(b, o);
            var n := o + RecLen(b, o);
            && Tiled(b) && Entries(b) == Live(b, 0, o) + One(b, o) + Live(b, n, BLOCK)
            && Tiled(c) && Entries(c) == Live(b, 0, o) + Live(b, n, BLOCK)
  {
    hide One, Cleared, Chain, Live;
    var c := Cleared(b, o);
    var n := o + RecLen(b, o);
    EntriesAround(b, o);
    ClearedRecord(b, o);
    ChainJoin(c, 0, o, n);
    ChainJoin(c, 0, n, BLOCK);
  }

  lemma ClearedRecord(b: Block, o: nat)
    requires Chain(b, 0, o) && Record(b, o) && Chain(b, o + RecLen(b, o), BLOCK)
    ensures var c := Cleared(b, o);
            var n := o + RecLen(b, o);
            && Chain(c, 0, o) && Live(c, 0, o) == Live(b, 0, o)
            && Chain(c, n, BLOCK) && Live(c, n, BLOCK) == Live(b, n, BLOCK)
            && Chain(c, o, n) && Live(c, o, n) == []
  {
    hide Chain, Live, Cleared, Inode, RecLen, NameLen;
    var c := Cleared(b, o);
    ClearedFields(b, o);
    ChainFrame(b, c, 0, o);
    ChainFrame(b, c, o + RecLen(b, o), BLOCK);
    ChainOne(c, o);
  }
}
