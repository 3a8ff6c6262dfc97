/** The chained hash table of data_types/hashtable.c. A key may be put more than once: its values form
    a stack with the newest on top, and a rehash turns every stack upside down. */
module Hashtable {
  import opened Basics

  datatype Entry<V> = Entry(key: nat, value: V)

  type Chain<V> = seq<Entry<V>>

  /** A load of three quarters. */
  predicate Overloaded(elements: nat, size: nat) {
    4 * elements > 3 * size
  }

  // ------------------------------------------------------------ the values of a key

  /** The values stored for key k, front of the chain first. */
  function Values<V>(c: Chain<V>, k: nat): (r: seq<V>)
  {
    if c == [] then []
    else if c[0].key == k then [c[0].value] + Values(c[1..], k)
    else Values(c[1..], k)
  }

  function Slot(k: nat, size: nat): (i: nat)
    requires size > 0
    ensures i < size
  {
    k % size
  }

  /** A table as a value: its chains. */
  type Buckets<V> = seq<Chain<V>>

  function Stack<V>(b: Buckets<V>, k: nat): seq<V>
    requires |b| > 0
  {
    Values(b[Slot(k, |b|)], k)
  }

  function Reverse<V>(s: seq<V>): (r: seq<V>)
    ensures |r| == |s|
  {
    if s == [] then [] else Reverse(s[1..]) + [s[0]]
  }

  /** Every entry stands in the chain its key hashes to. */
  ghost predicate Placed<V>(b: Buckets<V>) {
    && |b| > 0
    && forall i, j :: 0 <= i < |b| && 0 <= j < |b[i]| ==> b[i][j].key % |b| == i
  }

  function Total<V>(b: Buckets<V>): nat {
    if b == [] then 0 else |b[0]| + Total(b[1..])
  }

  lemma {:induction false} ValuesAppend<V>(a: Chain<V>, b: Chain<V>, k: nat)
    ensures Values(a + b, k) == Values(a, k) + Values(b, k)
    decreases |a|
  {
    if a == [] {
      assert a + b == b;
    } else {
      ValuesAppend(a[1..], b, k);
      assert (a + b)[1..] == a[1..] + b;
    }
  }

  lemma {:induction false} ValuesNone<V>(c: Chain<V>, k: nat)
    ensures Values(c, k) == [] <==> forall j :: 0 <= j < |c| ==> c[j].key != k
    decreases |c|
  {
    if c != [] {
      ValuesNone(c[1..], k);
      if Values(c, k) == [] {
        forall j | 0 <= j < |c|
          ensures c[j].key != k
        {
          if j > 0 { assert c[j] == c[1..][j - 1]; }
        }
      } else {
        if c[0].key != k {
          var j :| 0 <= j < |c[1..]| && c[1..][j].key == k;
          assert c[j + 1].key == k;
        }
      }
    }
  }

  lemma {:induction false} ReverseAppend<V>(a: seq<V>, b: seq<V>)
    ensures Reverse(a + b) == Reverse(b) + Reverse(a)
    decreases |a|
  {
    if a == [] {
      assert a + b == b;
    } else {
      ReverseAppend(a[1..], b);
      assert (a + b)[1..] == a[1..] + b;
    }
  }

  lemma {:induction false} TotalUpdate<V>(b: Buckets<V>, i: nat, c: Chain<V>)
    requires i < |b|
    ensures Total(b[i := c]) == Total(b) - |b[i]| + |c|
    decreases |b|
  {
    if i == 0 {
      assert b[0 := c][1..] == b[1..];
    } else {
      TotalUpdate(b[1..], i - 1, c);
      assert b[i := c][1..] == b[1..][i - 1 := c];
    }
  }

  lemma {:induction false} TotalPart<V>(b: Buckets<V>, i: nat)
    requires i <= |b|
    ensures Total(b[..i]) <= Total(b)
    decreases i
  {
    if i > 0 {
      TotalPart(b[1..], i - 1);
      assert b[..i][1..] == b[1..][..i - 1];
    }
  }

  // ------------------------------------------------------------ the code

  class Table<V> {
    var size: nat
    var elements: nat
    var bucket: Buckets<V>

    ghost predicate Valid()
      reads this
    {
      && size > 0 && |bucket| == size && Placed(bucket)
      && elements == Total(bucket)
      && !Overloaded(elements, size)
    }

    constructor (initSize: nat)
      requires initSize > 0
      ensures Valid() && size == initSize && elements == 0 && bucket == seq(initSize, _ => [])
    {
      size := initSize;
      elements := 0;
      bucket := seq(initSize, _ => []);
      new;
      EmptyTotal<V>(initSize);
    }

    /** hashtable_search: the newest value of the key, taken out if asked for. */
    method Search(key: nat, remove: bool) returns (r: Option<V>)
      requires Valid()
      modifies this`bucket, this`elements
      ensures Valid()
      ensures r == if Stack(old(bucket), key) == [] then None else Some(Stack(old(bucket), key)[0])
      ensures !remove || r.None? ==> bucket == old(bucket) && elements == old(elements)
      ensures remove && r.Some? ==> elements == old(elements) - 1 && Stack(bucket, key) == Stack(old(bucket), key)[1..]
      ensures forall k: nat :: k != key ==> Stack(bucket, k) == Stack(old(bucket), k)
    {
      var index := Slot(key, size);
      var chain := bucket[index];
      var j := 0;
      assert chain[0..] == chain;
      while j < |chain|
        invariant 0 <= j <= |chain| && bucket == old(bucket) && elements == old(elements)
        invariant Values(chain, key) == Values(chain[j..], key)
        invariant Values(chain[..j], key) == []
      {
        assert chain[j..][0] == chain[j] && chain[j..][1..] == chain[j + 1..];
        assert chain[..j + 1] == chain[..j] + [chain[j]];
        ValuesAppend(chain[..j], [chain[j]], key);
        if chain[j].key == key {
          r := Some(chain[j].value);
          if remove {
            Unlinked(bucket, index, j, key);
            bucket := bucket[index := chain[..j] + chain[j + 1..]];
            elements := elements - 1;
          }
          return;
        }
        j := j + 1;
      }
      r := None;
    }

    /** hashtable_put: doubles the table first if the load would pass three quarters. */
    method Put(key: nat, value: V)
      requires Valid()
      modifies this
      ensures Valid() && elements == old(elements) + 1
      ensures size == if Overloaded(old(elements) + 1, old(size)) then 2 * old(size) else old(size)
      ensures Stack(bucket, key) == [value] + Kept(old(bucket), old(elements), key)
      ensures forall k: nat :: k != key ==> Stack(bucket, k) == Kept(old(bucket), old(elements), k)
      decreases if Overloaded(elements + 1, size) then 2 else 0, 0
    {
      if Overloaded(elements + 1, size) {
        Rehash();
      }
      var index := Slot(key, size);
      elements := elements + 1;
      Prepended(bucket, index, Entry(key, value));
      bucket := bucket[index := [Entry(key, value)] + bucket[index]];
    }

    /** Reinserts every entry into a table of twice the size; no insertion can trigger another rehash. */
    method Rehash()
      requires Valid()
      modifies this
      ensures size == 2 * old(size) && elements == old(elements)
      ensures Valid() && !Overloaded(elements + 1, size)
      ensures forall k: nat :: Stack(bucket, k) == Reverse(Stack(old(bucket), k))
      decreases 1, 1
    {
      hide Slot, Placed;
      var table := new Table<V>(2 * size);
      NothingDone<V>(table.bucket);
      FlatSize(bucket);
      var i := 0;
      while i < size
        invariant 0 <= i <= size && size == old(size) && elements == old(elements) && bucket == old(bucket)
        invariant fresh(table) && table.Valid() && table.size == 2 * size
        invariant Moved(table.bucket, table.elements, Flat(bucket[..i]))
      {
        FlatNext(bucket, i);
        FlatBound(bucket, i);
        Reinsert(table, bucket[i], Flat(bucket[..i]));
        i := i + 1;
      }
      assert bucket[..i] == bucket;
      AllMoved(table.bucket, table.elements, bucket);
      bucket := table.bucket;
      size := table.size;
      elements := table.elements;
    }

    /** Puts one chain's entries into the new table, front to back. */
    method Reinsert(table: Table<V>, chain: Chain<V>, ghost done: Chain<V>)
      requires table.Valid() && Moved(table.bucket, table.elements, done)
      requires !Overloaded(2 * (|done| + |chain|), table.size)
      modifies table
      ensures table.Valid() && table.size == old(table.size)
      ensures Moved(table.bucket, table.elements, done + chain)
      decreases 1, 0
    {
      hide Slot, Placed;
      var j := 0;
      assert done + chain[..0] == done;
      while j < |chain|
        invariant 0 <= j <= |chain|
        invariant table.Valid() && table.size == old(table.size)
        invariant Moved(table.bucket, table.elements, done + chain[..j])
      {
        ghost var b := table.bucket;
        table.Put(chain[j].key, chain[j].value);
        OneMore(b, table.bucket, done + chain[..j], chain[j]);
        assert done + chain[..j + 1] == done + chain[..j] + [chain[j]];
        j := j + 1;
      }
      assert chain[..j] == chain;
    }
  }

  /** The entries done so far are in the new table, every key's values upside down. */
  ghost predicate Moved<V>(b: Buckets<V>, elements: nat, done: Chain<V>) {
    && |b| > 0 && elements == |done|
    && forall k: nat :: Stack(b, k) == Reverse(Values(done, k))
  }

  lemma AllMoved<V>(b': Buckets<V>, elements: nat, b: Buckets<V>)
    requires Placed(b) && Moved(b', elements, Flat(b))
    ensures elements == Total(b)
    ensures forall k: nat :: Stack(b', k) == Reverse(Stack(b, k))
  {
    FlatSize(b);
    forall k: nat
      ensures Stack(b', k) == Reverse(Stack(b, k))
    {
      FlatValues(b, k);
    }
  }

  /** The values a key has when its next value is put: reversed if the table is doubled first. */
  ghost function Kept<V>(b: Buckets<V>, elements: nat, k: nat): seq<V>
    requires |b| > 0
  {
    if Overloaded(elements + 1, |b|) then Reverse(Stack(b, k)) else Stack(b, k)
  }

  lemma Prepended<V>(b: Buckets<V>, i: nat, e: Entry<V>)
    requires Placed(b) && i == Slot(e.key, |b|)
    ensures var b' := b[i := [e] + b[i]];
            && Placed(b') && Total(b') == Total(b) + 1
            && Stack(b', e.key) == [e.value] + Stack(b, e.key)
            && forall k: nat :: k != e.key ==> Stack(b', k) == Stack(b, k)
  {
    TotalUpdate(b, i, [e] + b[i]);
    assert ([e] + b[i])[1..] == b[i];
  }

  /** All entries, chain after chain. */
  ghost function Flat<V>(b: Buckets<V>): Chain<V> {
    if b == [] then [] else b[0] + Flat(b[1..])
  }

  lemma {:induction false} FlatSize<V>(b: Buckets<V>)
    ensures |Flat(b)| == Total(b)
    decreases |b|
  {
    if b != [] { FlatSize(b[1..]); }
  }

  lemma {:induction false} FlatAppend<V>(a: Buckets<V>, b: Buckets<V>)
    ensures Flat(a + b) == Flat(a) + Flat(b)
    decreases |a|
  {
    if a == [] {
      assert a + b == b;
    } else {
      FlatAppend(a[1..], b);
      assert (a + b)[1..] == a[1..] + b;
    }
  }

  lemma FlatNext<V>(b: Buckets<V>, i: nat)
    requires i < |b|
    ensures Flat(b[..i + 1]) == Flat(b[..i]) + b[i]
  {
    assert b[..i + 1] == b[..i] + [b[i]];
    FlatAppend(b[..i], [b[i]]);
    assert [b[i]][1..] == [];
  }

  lemma FlatBound<V>(b: Buckets<V>, i: nat)
    requires i < |b|
    ensures |Flat(b[..i])| + |b[i]| <= Total(b)
  {
    FlatNext(b, i);
    FlatSize(b[..i + 1]);
    TotalPart(b, i + 1);
  }

  lemma {:induction false} FlatValuesFrom<V>(b: Buckets<V>, i: nat, k: nat)
    requires Placed(b) && i <= |b|
    ensures Values(Flat(b[i..]), k) == if i <= Slot(k, |b|) then Stack(b, k) else []
    decreases |b| - i
  {
    if i < |b| {
      FlatValuesFrom(b, i + 1, k);
      assert b[i..][1..] == b[i + 1..];
      ValuesAppend(b[i], Flat(b[i + 1..]), k);
      if i != Slot(k, |b|) { ValuesNone(b[i], k); }
    }
  }

  lemma FlatValues<V>(b: Buckets<V>, k: nat)
    requires Placed(b)
    ensures Values(Flat(b), k) == Stack(b, k)
  {
    FlatValuesFrom(b, 0, k);
    assert b[0..] == b;
  }

  lemma NothingDone<V>(b: Buckets<V>)
    requires |b| > 0 && b == seq(|b|, _ => [])
    ensures Moved(b, 0, [])
  {
    forall k: nat
      ensures Stack(b, k) == []
    {
      assert b[Slot(k, |b|)] == [];
    }
  }

  lemma OneMore<V>(b: Buckets<V>, b': Buckets<V>, done: Chain<V>, e: Entry<V>)
    requires |b| > 0 && |b'| > 0
    requires forall k: nat :: Stack(b, k) == Reverse(Values(done, k))
    requires Stack(b', e.key) == [e.value] + Stack(b, e.key)
    requires forall k: nat :: k != e.key ==> Stack(b', k) == Stack(b, k)
    ensures forall k: nat :: Stack(b', k) == Reverse(Values(done + [e], k))
  {
    hide Slot;
    forall k: nat
      ensures Stack(b', k) == Reverse(Values(done + [e], k))
    {
      ValuesAppend(done, [e], k);
      assert [e][1..] == [];
      if k == e.key {
        assert Values([e], k) == [e.value];
        ReverseAppend(Values(done, k), [e.value]);
        assert [e.value][1..] == [];
        assert Reverse([e.value]) == [e.value];
      } else {
        assert Values([e], k) == [];
        assert Values(done + [e], k) == Values(done, k);
      }
    }
  }

  lemma {:induction false} EmptyTotal<V>(n: nat)
    ensures Total<V>(seq(n, _ => [])) == 0
  {
    if n > 0 {
      EmptyTotal<V>(n - 1);
      var b: Buckets<V> := seq(n, _ => []);
      assert b[1..] == seq(n - 1, _ => []);
    }
  }

  lemma Unlinked<V>(b: Buckets<V>, i: nat, j: nat, key: nat)
    requires Placed(b) && i == Slot(key, |b|) && j < |b[i]| && b[i][j].key == key
    requires Values(b[i][..j], key) == []
    ensures var b' := b[i := b[i][..j] + b[i][j + 1..]];
            && Placed(b') && Total(b') == Total(b) - 1
            && Stack(b, key) == [b[i][j].value] + Stack(b', key)
            && forall k: nat :: k != key ==> Stack(b', k) == Stack(b, k)
  {
    var c := b[i];
    var d := c[..j] + c[j + 1..];
    TotalUpdate(b, i, d);
    assert c == c[..j] + ([c[j]] + c[j + 1..]);
    forall k: nat
      ensures Values(c, k) == Values(c[..j], k) + Values([c[j]] + c[j + 1..], k)
      ensures Values(d, k) == Values(c[..j], k) + Values(c[j + 1..], k)
    {
      ValuesAppend(c[..j], [c[j]] + c[j + 1..], k);
      ValuesAppend(c[..j], c[j + 1..], k);
    }
    assert ([c[j]] + c[j + 1..])[1..] == c[j + 1..];
  }

  // ------------------------------------------------------------ the table as a finite map

  /** What a lookup answers. */
  ghost function Lookup<V>(b: Buckets<V>, k: nat): Option<V>
    requires |b| > 0
  {
    if Stack(b, k) == [] then None else Some(Stack(b, k)[0])
  }

  /** No key has been put twice. */
  ghost predicate Distinct<V>(b: Buckets<V>) {
    |b| > 0 && forall k: nat :: |Stack(b, k)| <= 1
  }

  lemma {:induction false} ReverseEnds<V>(s: seq<V>)
    requires s != []
    ensures Reverse(s)[0] == s[|s| - 1]
  {
    if |s| > 1 { ReverseEnds(s[1..]); }
  }

  /** A put keeps another key's lookup exactly when it does not double the table, or the key's oldest
      and newest values agree. */
  lemma PutKeepsLookup<V>(b: Buckets<V>, b': Buckets<V>, elements: nat, k: nat)
    requires |b| > 0 && |b'| > 0 && Stack(b', k) == Kept(b, elements, k)
    ensures Lookup(b', k) == Lookup(b, k) <==>
              !Overloaded(elements + 1, |b|) || Stack(b, k) == [] || Stack(b, k)[0] == Stack(b, k)[|Stack(b, k)| - 1]
  {
    hide Slot;
    if Stack(b, k) != [] { ReverseEnds(Stack(b, k)); }
  }

  /** With a key put twice the law fails: a table of three slots holds two values of key 0, as its load
      allows, and the next put doubles it and hides the newer value behind the older. */
  lemma DuplicateFlips()
    ensures var b: Buckets<nat> := [[Entry(0, 22), Entry(0, 11)], [], []];
            && Placed(b) && Total(b) == 2 && !Overloaded(2, |b|) && Overloaded(3, |b|)
            && Lookup(b, 0) == Some(22) && Kept(b, 2, 0) == [11, 22]
  {
    var c: Chain<nat> := [Entry(0, 22), Entry(0, 11)];
    var b: Buckets<nat> := [c, [], []];
    assert c[1..][1..] == [];
    assert Values(c[1..], 0) == [11];
    assert Values(c, 0) == [22, 11];
    assert [22, 11][1..] == [11];
    assert Reverse([11]) == [11];
    assert Reverse([22, 11]) == [11, 22];
    assert b[1..] == [[], []] && b[1..][1..] == [[]];
    assert Total(b[1..][1..]) == 0;
    assert Total(b[1..]) == 0;
  }

  lemma ReverseShort<V>(s: seq<V>)
    requires |s| <= 1
    ensures Reverse(s) == s
  {
  }

  /** The keys present in a chain. */
  ghost function KeysOf<V>(c: Chain<V>): set<nat> {
    set j | 0 <= j < |c| :: c[j].key
  }

  lemma {:induction false} DistinctCount<V>(c: Chain<V>)
    requires forall k: nat :: |Values(c, k)| <= 1
    ensures |KeysOf(c)| == |c|
    decreases |c|
  {
    if c == [] {
      assert KeysOf(c) == {};
    } else {
      var rest, k0 := c[1..], c[0].key;
      forall k: nat
        ensures |Values(rest, k)| <= 1
      {
        assert |Values(c, k)| <= 1;
      }
      assert |Values(c, k0)| <= 1;
      ValuesNone(rest, k0);
      DistinctCount(rest);
      forall k
        ensures k in KeysOf(c) <==> k in KeysOf(rest) + {k0}
      {
        if k in KeysOf(c) {
          var j :| 0 <= j < |c| && c[j].key == k;
          if j > 0 { assert rest[j - 1].key == k; }
        }
        if k in KeysOf(rest) {
          var j :| 0 <= j < |rest| && rest[j].key == k;
          assert c[j + 1].key == k;
        }
        if k == k0 { assert c[0].key == k; }
      }
      assert KeysOf(c) == KeysOf(rest) + {k0};
      assert k0 !in KeysOf(rest);
    }
  }

  /** With distinct keys the element counter is the number of keys of the map. */
  lemma ElementsAreKeys<V>(b: Buckets<V>)
    requires Placed(b) && Distinct(b)
    ensures Total(b) == |KeysOf(Flat(b))|
    ensures forall k: nat :: k in KeysOf(Flat(b)) <==> Lookup(b, k) != None
  {
    hide Slot;
    FlatSize(b);
    forall k: nat
      ensures Values(Flat(b), k) == Stack(b, k)
      ensures k in KeysOf(Flat(b)) <==> Lookup(b, k) != None
    {
      FlatValues(b, k);
      ValuesNone(Flat(b), k);
    }
    DistinctCount(Flat(b));
  }

  // ------------------------------------------------------------ refinement of a map

  /** The table holds exactly the pairs of m, each once. */
  ghost predicate Maps<V>(b: Buckets<V>, m: map<nat, V>) {
    |b| > 0 && forall k: nat :: Stack(b, k) == if k in m then [m[k]] else []
  }

  lemma MapsNothing<V>(b: Buckets<V>)
    requires |b| > 0 && forall i :: 0 <= i < |b| ==> b[i] == []
    ensures Maps(b, map[])
  {
  }

  /** A lookup is a lookup in the map. */
  lemma MapsAt<V>(b: Buckets<V>, m: map<nat, V>, k: nat)
    requires Maps(b, m)
    ensures |b| > 0 && Stack(b, k) == if k in m then [m[k]] else []
    ensures Lookup(b, k) == if k in m then Some(m[k]) else None
  {
  }

  /** A rehash leaves the map as it is. */
  lemma MapsReversed<V>(b: Buckets<V>, m: map<nat, V>, b': Buckets<V>)
    requires Maps(b, m) && |b'| > 0 && forall k: nat :: Stack(b', k) == Reverse(Stack(b, k))
    ensures Maps(b', m)
  {
    hide Stack;
    forall k: nat
      ensures Stack(b', k) == if k in m then [m[k]] else []
    {
      ReverseShort(Stack(b, k));
    }
  }

  lemma KeptShort<V>(b: Buckets<V>, elements: nat, m: map<nat, V>, k: nat)
    requires Maps(b, m)
    ensures Kept(b, elements, k) == if k in m then [m[k]] else []
  {
    hide Stack;
    ReverseShort(Stack(b, k));
  }

  /** A put, with or without a rehash, adds a new key to the map; of a key that is there it leaves two
      values for it. */
  lemma MapsPut<V>(b: Buckets<V>, elements: nat, m: map<nat, V>, key: nat, value: V, b': Buckets<V>)
    requires Maps(b, m) && |b'| > 0
    requires Stack(b', key) == [value] + Kept(b, elements, key)
    requires forall k: nat :: k != key ==> Stack(b', k) == Kept(b, elements, k)
    ensures key !in m ==> Maps(b', m[key := value])
    ensures Distinct(b') <==> key !in m
    ensures Lookup(b', key) == Some(value)
    ensures forall k: nat :: k != key ==> Lookup(b', k) == Lookup(b, k)
  {
    hide Stack, Kept;
    forall k: nat
      ensures Kept(b, elements, k) == if k in m then [m[k]] else []
    {
      KeptShort(b, elements, m, k);
    }
    if key in m { assert |Stack(b', key)| == 2; }
  }

  /** A removal takes the key out of the map. */
  lemma MapsTake<V>(b: Buckets<V>, m: map<nat, V>, key: nat, b': Buckets<V>)
    requires Maps(b, m) && |b'| > 0
    requires Stack(b, key) == [] ==> b' == b
    requires Stack(b, key) != [] ==> Stack(b', key) == Stack(b, key)[1..]
    requires forall k: nat :: k != key ==> Stack(b', k) == Stack(b, k)
    ensures Maps(b', m - {key})
  {
    hide Stack;
  }

  /** The element counter is the size of the map. */
  lemma MapsSize<V>(b: Buckets<V>, m: map<nat, V>)
    requires Placed(b) && Maps(b, m)
    ensures Total(b) == |m|
  {
    hide Stack, Placed, Total;
    assert Distinct(b);
    ElementsAreKeys(b);
    assert forall k: nat :: k in KeysOf(Flat(b)) <==> k in m;
    assert KeysOf(Flat(b)) == m.Keys;
    assert |m| == |m.Keys|;
  }

  datatype Call<V> = Get(key: nat) | Put(key: nat, value: V) | Remove(key: nat)

  /** The map after a call. */
  function After<V>(m: map<nat, V>, c: Call<V>): map<nat, V> {
    match c
    case Get(_) => m
    case Put(key, value) => m[key := value]
    case Remove(key) => m - {key}
  }

  /** What a call answers on the map; a put answers nothing. */
  function Answer<V>(m: map<nat, V>, c: Call<V>): Option<V> {
    if !c.Put? && c.key in m then Some(m[c.key]) else None
  }

  function Final<V>(m: map<nat, V>, cs: seq<Call<V>>): map<nat, V> {
    if cs == [] then m else After(Final(m, cs[..|cs| - 1]), cs[|cs| - 1])
  }

  /** Only keys that are not there are put. */
  ghost predicate NewKeys<V>(m: map<nat, V>, cs: seq<Call<V>>) {
    forall n :: 0 <= n < |cs| && cs[n].Put? ==> cs[n].key !in Final(m, cs[..n])
  }

  /** Over every sequence of calls that puts new keys only, across all doublings, the table answers as a
      finite map does, and its element counter is the size of the map. */
  method Serve<V>(table: Table<V>, cs: seq<Call<V>>, ghost m: map<nat, V>) returns (outs: seq<Option<V>>)
    requires table.Valid() && Maps(table.bucket, m) && NewKeys(m, cs)
    modifies table
    ensures table.Valid() && Maps(table.bucket, Final(m, cs)) && table.elements == |Final(m, cs)|
    ensures |outs| == |cs| && forall n :: 0 <= n < |cs| ==> outs[n] == Answer(Final(m, cs[..n]), cs[n])
  {
    hide Maps, Placed, Total, Stack, Kept, Final, After, Answer;
    outs := [];
    var n := 0;
    FinalNone(m, cs);
    while n < |cs|
      invariant 0 <= n <= |cs| && |outs| == n && table.Valid()
      invariant Maps(table.bucket, Final(m, cs[..n]))
      invariant forall k :: 0 <= k < n ==> outs[k] == Answer(Final(m, cs[..k]), cs[k])
    {
      var out := ServeOne(table, cs[n], Final(m, cs[..n]));
      FinalNext(m, cs, n);
      outs := outs + [out];
      n := n + 1;
    }
    assert cs[..n] == cs;
    MapsSize(table.bucket, Final(m, cs));
  }

  lemma FinalNone<V>(m: map<nat, V>, cs: seq<Call<V>>)
    ensures Final(m, cs[..0]) == m
  {
  }

  lemma FinalNext<V>(m: map<nat, V>, cs: seq<Call<V>>, n: nat)
    requires n < |cs|
    ensures Final(m, cs[..n + 1]) == After(Final(m, cs[..n]), cs[n])
  {
    assert cs[..n + 1][..n] == cs[..n];
  }

  method ServeOne<V>(table: Table<V>, c: Call<V>, ghost m: map<nat, V>) returns (out: Option<V>)
    requires table.Valid() && Maps(table.bucket, m) && (c.Put? ==> c.key !in m)
    modifies table
    ensures table.Valid() && Maps(table.bucket, After(m, c)) && out == Answer(m, c)
  {
    hide Maps, Placed, Total, Stack, Kept;
    ghost var b, e := table.bucket, table.elements;
    MapsAt(b, m, c.key);
    match c {
      case Get(key) =>
        out := table.Search(key, false);
      case Put(key, value) =>
        table.Put(key, value);
        MapsPut(b, e, m, key, value, table.bucket);
        out := None;
      case Remove(key) =>
        out := table.Search(key, true);
        MapsTake(b, m, key, table.bucket);
    }
  }
}
