/** Ring buffers: stream position p lives in slot p mod n. */
module Rings {
  import opened Basics

  function Slot(p: nat, n: nat): (s: nat)
    requires n > 0
    ensures s < n
  {
    p % n
  }

  /** Quotient and remainder are determined by the division equation. */
  lemma DivUnique(a: nat, n: nat, q: int, r: nat)
    requires a == n * q + r && r < n
    ensures a / n == q && a % n == r
  {
    var d := a / n;
    assert a == n * d + a % n;
    if q < d {
      MulGrows(n, q, d);
    } else if d < q {
      MulGrows(n, d, q);
    }
  }

  /** Moving k positions on, at most once around. */
  lemma SlotAdd(p: nat, k: nat, n: nat)
    requires n > 0 && k <= n
    ensures Slot(p + k, n) == if Slot(p, n) + k < n then Slot(p, n) + k else Slot(p, n) + k - n
  {
    var q, r := p / n, p % n;
    assert p == n * q + r;
    if r + k < n {
      DivUnique(p + k, n, q, r + k);
    } else {
      assert n * (q + 1) == n * q + n;
      DivUnique(p + k, n, q + 1, r + k - n);
    }
  }

  /** Positions less than one turn apart have different slots. */
  lemma SlotApart(p: nat, q: nat, n: nat)
    requires n > 0 && p < q < p + n
    ensures Slot(p, n) != Slot(q, n)
  {
    SlotAdd(p, q - p, n);
  }

  // ------------------------------------------------------------ writing and reading a stretch

  /** The ring after the bytes have been stored from position p on. */
  function Put<T>(buf: seq<T>, p: nat, data: seq<T>): (r: seq<T>)
    requires |buf| > 0
    ensures |r| == |buf|
    decreases |data|
  {
    if data == [] then buf else Put(buf[Slot(p, |buf|) := data[0]], p + 1, data[1..])
  }

  /** The bytes at k consecutive positions from p on. */
  function Get<T>(buf: seq<T>, p: nat, k: nat): (r: seq<T>)
    requires |buf| > 0
    ensures |r| == k
    ensures forall i :: 0 <= i < k ==> r[i] == buf[Slot(p + i, |buf|)]
  {
    seq(k, i requires 0 <= i < k => buf[Slot(p + i, |buf|)])
  }

  lemma {:induction false} PutAt<T>(buf: seq<T>, p: nat, data: seq<T>, q: nat)
    requires |buf| > 0 && |data| <= |buf| && p + |data| <= q + |buf| && q < p + |buf|
    ensures Put(buf, p, data)[Slot(q, |buf|)]
         == if p <= q < p + |data| then data[q - p] else buf[Slot(q, |buf|)]
    decreases |data|
  {
    if data != [] {
      var n := |buf|;
      var next := buf[Slot(p, n) := data[0]];
      if q == p {
        if |data| > 1 { PutMisses(next, p + 1, data[1..], Slot(p, n), p); }
      } else {
        if q < p { SlotApart(q, p, n); } else { SlotApart(p, q, n); }
        PutAt(next, p + 1, data[1..], q);
      }
    }
  }

  lemma {:induction false} PutMisses<T>(buf: seq<T>, p: nat, data: seq<T>, s: nat, q: nat)
    requires |buf| > 0 && s < |buf| && s == Slot(q, |buf|) && q < p && p + |data| <= q + |buf|
    ensures Put(buf, p, data)[s] == buf[s]
    decreases |data|
  {
    if data != [] {
      SlotApart(q, p, |buf|);
      PutMisses(buf[Slot(p, |buf|) := data[0]], p + 1, data[1..], s, q);
    }
  }

  /** A stretch that does not reach the end of the ring is one contiguous copy. */
  lemma {:induction false} PutStraight<T>(buf: seq<T>, p: nat, data: seq<T>)
    requires |buf| > 0 && Slot(p, |buf|) + |data| <= |buf|
    ensures Put(buf, p, data) == buf[..Slot(p, |buf|)] + data + buf[Slot(p, |buf|) + |data|..]
    decreases |data|
  {
    var n, s := |buf|, Slot(p, |buf|);
    if data != [] {
      var next := buf[s := data[0]];
      SlotAdd(p, 1, n);
      if |data| > 1 {
        PutStraight(next, p + 1, data[1..]);
        assert next[..s + 1] == buf[..s] + [data[0]];
        assert data == [data[0]] + data[1..];
        assert next[s + |data|..] == buf[s + |data|..];
      } else {
        assert data == [data[0]];
      }
    }
  }

  lemma {:induction false} PutSplit<T>(buf: seq<T>, p: nat, data: seq<T>, k: nat)
    requires |buf| > 0 && k <= |data|
    ensures Put(buf, p, data) == Put(Put(buf, p, data[..k]), p + k, data[k..])
    decreases k
  {
    if k > 0 {
      var next := buf[Slot(p, |buf|) := data[0]];
      PutSplit(next, p + 1, data[1..], k - 1);
      assert data[1..][..k - 1] == data[..k][1..];
      assert data[1..][k - 1..] == data[k..];
    } else {
      assert data[0..] == data;
    }
  }

  /** A stretch that passes the end of the ring is two copies: up to the end, then from the start. */
  lemma PutWrapped<T>(buf: seq<T>, p: nat, data: seq<T>)
    requires |buf| > 0 && |data| <= |buf| <= Slot(p, |buf|) + |data|
    ensures var low := Slot(p, |buf|);
            var k := |buf| - low;
            Put(buf, p, data) == data[k..] + (buf[..low] + data[..k])[|data| - k..]
  {
    var n, low := |buf|, Slot(p, |buf|);
    var k := n - low;
    PutSplit(buf, p, data, k);
    PutStraight(buf, p, data[..k]);
    SlotAdd(p, k, n);
    PutStraight(Put(buf, p, data[..k]), p + k, data[k..]);
  }

  lemma GetStraight<T>(buf: seq<T>, p: nat, k: nat)
    requires |buf| > 0 && Slot(p, |buf|) + k <= |buf|
    ensures Get(buf, p, k) == buf[Slot(p, |buf|)..Slot(p, |buf|) + k]
  {
    forall i | 0 <= i < k
      ensures Get(buf, p, k)[i] == buf[Slot(p, |buf|) + i]
    {
      SlotAdd(p, i, |buf|);
    }
  }

  lemma GetSplit<T>(buf: seq<T>, p: nat, k: nat, j: nat)
    requires |buf| > 0 && j <= k
    ensures Get(buf, p, k) == Get(buf, p, j) + Get(buf, p + j, k - j)
  {
  }

  lemma GetWrapped<T>(buf: seq<T>, p: nat, k: nat)
    requires |buf| > 0 && k <= |buf| <= Slot(p, |buf|) + k
    ensures var low := Slot(p, |buf|);
            Get(buf, p, k) == buf[low..] + buf[..k - (|buf| - low)]
  {
    var n, low := |buf|, Slot(p, |buf|);
    GetSplit(buf, p, k, n - low);
    GetStraight(buf, p, n - low);
    SlotAdd(p, n - low, n);
    GetStraight(buf, p + (n - low), k - (n - low));
  }
}
