/** Notions shared by the models. */
module Basics {

  datatype Option<+T> = None | Some(value: T)

  newtype Byte = x: int | 0 <= x < 256

  ghost predicate NoDup(s: seq<nat>) {
    forall i, j :: 0 <= i < j < |s| ==> s[i] != s[j]
  }

  lemma MulGrows(m: nat, x: int, y: int)
    requires x < y
    ensures m * x + m <= m * y
  {
    assert m * y == m * x + m * (y - x);
    assert m * (y - x) == m * (y - x - 1) + m;
  }

  lemma SubsetSize(a: set<nat>, b: set<nat>)
    requires a <= b
    ensures |a| <= |b|
  {
    assert b == a + (b - a);
  }

  /** The word that a little-endian machine reads from two bytes. */
  function Word(lo: Byte, hi: Byte): nat {
    lo as nat + 256 * hi as nat
  }

  lemma Reassociate<T>(a: seq<T>, b: seq<T>, c: seq<T>)
    ensures a + (b + c) == (a + b) + c
  {
  }

  /** kmemcpy into a buffer at the given offset. */
  method CopyIn(a: array<Byte>, off: nat, data: seq<Byte>)
    requires off + |data| <= a.Length
    modifies a
    ensures var b := old(a[..]); a[..] == b[..off] + data + b[off + |data|..]
  {
    var i := 0;
    while i < |data|
      invariant 0 <= i <= |data|
      invariant forall k :: 0 <= k < a.Length ==> a[k] == if off <= k < off + i then data[k - off] else old(a[k])
    {
      a[off + i] := data[i];
      i := i + 1;
    }
  }
}
