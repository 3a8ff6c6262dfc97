/** The receive side of network/tcp.c and network/tcp_socket.c: a ring of bytes, a mark per slot for
    bytes that arrived out of order, and the window that is advertised to the peer. Sequence numbers
    are natural numbers; the source is followed for windows that stay below 2^32. */
module TcpReceive {
  import opened Basics
  import opened Rings

  const SEQ_MAX: nat := 0xFFFF_FFFF

  datatype Queue = Queue(
    wndMin: nat,        // first byte not yet read by the application
    nxtRcv: nat,        // next byte expected in order
    wndSize: int,       // window advertised to the peer
    buf: seq<Byte>,
    marks: seq<bool>,   // set for bytes stored ahead of nxtRcv
    hole: bool,
    maxSeq: nat)        // end of the bytes stored ahead, zero without a hole

  predicate Shaped(q: Queue) {
    |q.buf| == |q.marks| > 0
  }

  function End(q: Queue): nat {
    q.wndMin + |q.buf|
  }

  predicate Marked(q: Queue, p: nat)
    requires Shaped(q)
  {
    q.marks[Slot(p, |q.marks|)]
  }

  function Empty(isn: nat, size: nat): Queue
    requires size > 0
  {
    Queue(isn, isn, size, seq(size, _ => 0), seq(size, _ => false), false, 0)
  }

  // ------------------------------------------------------------ what the code computes

  /** Segments are taken when they start at or after nxtRcv and end inside the window. */
  predicate Acceptable(q: Queue, s: nat, n: nat) {
    n > 0 && s >= q.nxtRcv && s + n <= End(q)
  }

  predicate Slow(q: Queue, s: nat) {
    q.nxtRcv != s || q.hole
  }

  function MarkAt(q: Queue, p: nat): (r: Queue)
    requires Shaped(q)
    ensures Shaped(r) && r.buf == q.buf
  {
    if Marked(q, p) then q
    else q.(marks := q.marks[Slot(p, |q.marks|) := true], wndSize := q.wndSize - 1)
  }

  /** Marking the n bytes from position p on, charging the window for those not yet marked. */
  function MarkRun(q: Queue, p: nat, n: nat): (r: Queue)
    requires Shaped(q)
    ensures Shaped(r)
    decreases n
  {
    if n == 0 then q else MarkRun(MarkAt(q, p), p + 1, n - 1)
  }

  /** How far the marks reach without a gap from position p on. */
  function Scan(q: Queue, p: nat): (r: nat)
    requires Shaped(q) && p <= End(q)
    ensures p <= r <= End(q)
    decreases End(q) - p
  {
    if p < End(q) && p < q.maxSeq && Marked(q, p) then Scan(q, p + 1) else p
  }

  /** The slots from low to high inclusive, around the end of the ring if need be; nothing at all
      when the two coincide. */
  predicate ClearedSlot(low: nat, high: nat, i: nat) {
    (low < high && low <= i <= high) || (low > high && (i >= low || i <= high))
  }

  function Cleared(marks: seq<bool>, low: nat, high: nat): (r: seq<bool>)
    ensures |r| == |marks|
    ensures forall i :: 0 <= i < |marks| ==> r[i] == (marks[i] && !ClearedSlot(low, high, i))
  {
    seq(|marks|, i requires 0 <= i < |marks| => marks[i] && !ClearedSlot(low, high, i))
  }

  /** Moves nxtRcv over the marked bytes and turns their marks off. */
  function Advance(q: Queue): (r: Queue)
    requires Shaped(q)
    ensures Shaped(r)
  {
    var index := Scan(q, q.wndMin);
    var nxt := if index > q.nxtRcv then index else q.nxtRcv;
    var closed := nxt == q.maxSeq;
    var n := |q.marks|;
    q.(nxtRcv := nxt,
       hole := q.hole && !closed,
       maxSeq := if closed then 0 else q.maxSeq,
       marks := if index == q.wndMin then q.marks
                else Cleared(q.marks, Slot(q.wndMin, n), Slot(index, n)))
  }

  /** A segment's data is stored; in order it extends nxtRcv, otherwise its bytes are marked and the
      marks are scanned from the window's start. */
  function Accept(q: Queue, s: nat, data: seq<Byte>): (r: Queue)
    requires Shaped(q)
    ensures Shaped(r)
  {
    var stored := q.(buf := Put(q.buf, s, data));
    if Slow(q, s) then
      var last := if q.maxSeq < s + |data| then s + |data| else q.maxSeq;
      Advance(MarkRun(stored.(hole := true, maxSeq := last), s, |data|))
    else
      stored.(nxtRcv := q.nxtRcv + |data|, wndSize := q.wndSize - |data|)
  }

  function Taken(q: Queue, want: nat): nat
    requires q.wndMin <= q.nxtRcv
  {
    if q.nxtRcv - q.wndMin < want then q.nxtRcv - q.wndMin else want
  }

  /** The application reads up to want bytes. */
  function Dequeue(q: Queue, want: nat): (Queue, seq<Byte>)
    requires Shaped(q) && q.wndMin <= q.nxtRcv
  {
    var k := Taken(q, want);
    (q.(wndMin := q.wndMin + k, wndSize := q.wndSize + k), Get(q.buf, q.wndMin, k))
  }

  // ------------------------------------------------------------ the invariant

  /** Positions stored ahead of nxtRcv. */
  function Ahead(q: Queue): set<nat>
    requires Shaped(q)
  {
    set p: nat | q.wndMin <= p < End(q) && Marked(q, p)
  }

  ghost predicate Inv(q: Queue) {
    && Shaped(q)
    && q.wndMin <= q.nxtRcv <= End(q)
    && (forall p: nat :: q.wndMin <= p < q.nxtRcv ==> !Marked(q, p))
    && (forall p: nat :: q.nxtRcv <= p < End(q) && Marked(q, p) ==> q.hole && p < q.maxSeq)
    && (q.hole ==> q.nxtRcv < q.maxSeq <= End(q))
    && (!q.hole ==> q.maxSeq == 0)
    && q.wndSize + (q.nxtRcv - q.wndMin) + |Ahead(q)| == |q.buf|
  }

  // ------------------------------------------------------------ marking

  lemma MarkedAfter(q: Queue, p: nat, x: nat)
    requires Shaped(q) && q.wndMin <= p < End(q) && q.wndMin <= x < End(q)
    ensures Marked(MarkAt(q, p), x) <==> Marked(q, x) || x == p
  {
    if x < p { SlotApart(x, p, |q.buf|); }
    if p < x { SlotApart(p, x, |q.buf|); }
  }

  lemma MarkAtCharges(q: Queue, p: nat)
    requires Shaped(q) && q.wndMin <= p < End(q)
    ensures var r := MarkAt(q, p);
            && Ahead(r) == Ahead(q) + {p}
            && r.wndSize + |Ahead(r)| == q.wndSize + |Ahead(q)|
  {
    var r := MarkAt(q, p);
    forall x: nat | q.wndMin <= x < End(q)
      ensures Marked(r, x) <==> Marked(q, x) || x == p
    {
      MarkedAfter(q, p, x);
    }
    assert Ahead(r) == Ahead(q) + {p};
  }

  /** Marking keeps everything but marks and window, marks exactly the run, and conserves the sum of
      window and marked bytes. */
  lemma {:induction false} MarkRunCharges(q: Queue, p: nat, n: nat)
    requires Shaped(q) && q.wndMin <= p && p + n <= End(q)
    ensures var r := MarkRun(q, p, n);
            && r == q.(marks := r.marks, wndSize := r.wndSize)
            && (forall x: nat :: q.wndMin <= x < End(q) ==> (Marked(r, x) <==> Marked(q, x) || p <= x < p + n))
            && r.wndSize + |Ahead(r)| == q.wndSize + |Ahead(q)|
    decreases n
  {
    hide Slot, Ahead;
    if n > 0 {
      MarkAtCharges(q, p);
      MarkRunCharges(MarkAt(q, p), p + 1, n - 1);
      forall x: nat | q.wndMin <= x < End(q)
        ensures Marked(MarkAt(q, p), x) <==> Marked(q, x) || x == p
      {
        MarkedAfter(q, p, x);
      }
    }
  }

  // ------------------------------------------------------------ scanning and clearing

  lemma {:induction false} ScanStops(q: Queue, p: nat)
    requires Shaped(q) && p <= End(q)
    ensures forall x: nat :: p <= x < Scan(q, p) ==> Marked(q, x)
    ensures p < Scan(q, p) ==> Scan(q, p) <= q.maxSeq
    ensures Scan(q, p) < End(q) && Scan(q, p) < q.maxSeq ==> !Marked(q, Scan(q, p))
    decreases End(q) - p
  {
    hide Slot;
    if p < End(q) && p < q.maxSeq && Marked(q, p) {
      ScanStops(q, p + 1);
      assert Scan(q, p) == Scan(q, p + 1);
    } else {
      assert Scan(q, p) == p;
    }
  }

  /** Short of a full turn, clearing from the slot of w to the slot of i hits exactly the positions
      from w to i. */
  lemma ClearedPositions(w: nat, i: nat, x: nat, n: nat)
    requires n > 0 && w < i < w + n && w <= x < w + n
    ensures ClearedSlot(Slot(w, n), Slot(i, n), Slot(x, n)) <==> x <= i
  {
    SlotAdd(w, i - w, n);
    SlotAdd(w, x - w, n);
  }

  lemma MarkedAfterClear(q: Queue, i: nat, x: nat)
    requires Shaped(q) && q.wndMin < i < End(q) && q.wndMin <= x < End(q)
    ensures var r := q.(marks := Cleared(q.marks, Slot(q.wndMin, |q.marks|), Slot(i, |q.marks|)));
            Marked(r, x) <==> Marked(q, x) && x > i
  {
    ClearedPositions(q.wndMin, i, x, |q.marks|);
  }

  /** The state between marking and scanning. */
  ghost predicate Pending(q: Queue) {
    && Shaped(q) && q.hole
    && q.wndMin <= q.nxtRcv < q.maxSeq <= End(q)
    && (forall p: nat :: q.wndMin <= p < q.nxtRcv ==> !Marked(q, p))
    && (forall p: nat :: q.nxtRcv <= p < End(q) && Marked(q, p) ==> p < q.maxSeq)
    && q.wndSize + (q.nxtRcv - q.wndMin) + |Ahead(q)| == |q.buf|
  }

  ghost function Span(a: nat, b: nat): (r: set<nat>)
    requires a <= b
    ensures |r| == b - a
    ensures forall p :: p in r <==> a <= p < b
    decreases b
  {
    if a == b then {} else Span(a, b - 1) + {b - 1}
  }

  lemma AdvanceStays(q: Queue)
    requires Pending(q) && Scan(q, q.wndMin) == q.wndMin
    ensures Inv(Advance(q)) && Advance(q) == q
  {
  }

  lemma AdvanceMarks(q: Queue)
    requires Pending(q) && q.wndMin < Scan(q, q.wndMin) < End(q)
    ensures var r := Advance(q);
            && q.nxtRcv == q.wndMin && r.nxtRcv == Scan(q, q.wndMin)
            && (forall x: nat :: q.wndMin <= x < End(q) ==> (Marked(r, x) <==> Marked(q, x) && x >= r.nxtRcv))
            && (forall x: nat :: q.wndMin <= x < r.nxtRcv ==> Marked(q, x)) && r.nxtRcv <= q.maxSeq
  {
    hide Slot, ClearedSlot, Ahead;
    var i := Scan(q, q.wndMin);
    ScanStops(q, q.wndMin);
    assert Marked(q, q.wndMin);
    var r := Advance(q);
    forall x: nat | q.wndMin <= x < End(q)
      ensures Marked(r, x) <==> Marked(q, x) && x >= i
    {
      MarkedAfterClear(q, i, x);
    }
  }

  lemma AdvanceClears(q: Queue)
    requires Pending(q) && q.wndMin < Scan(q, q.wndMin) < End(q)
    ensures Inv(Advance(q))
    ensures var r := Advance(q);
            && q.nxtRcv == q.wndMin && r.nxtRcv == Scan(q, q.wndMin)
            && forall x: nat :: q.wndMin <= x < End(q) ==> (Marked(r, x) <==> Marked(q, x) && x >= r.nxtRcv)
  {
    hide Slot, ClearedSlot, Cleared, Scan, Marked, Ahead;
    AdvanceMarks(q);
    AheadShrinks(q, Advance(q), Advance(q).nxtRcv);
  }

  lemma AheadShrinks(q: Queue, r: Queue, i: nat)
    requires Shaped(q) && Shaped(r) && r.wndMin == q.wndMin <= i <= End(q) && |r.buf| == |q.buf|
    requires forall x: nat :: q.wndMin <= x < End(q) ==> (Marked(r, x) <==> Marked(q, x) && x >= i)
    requires forall x: nat :: q.wndMin <= x < i ==> Marked(q, x)
    ensures |Ahead(r)| + (i - q.wndMin) == |Ahead(q)|
  {
    hide Marked;
    assert Ahead(r) == Ahead(q) - Span(q.wndMin, i);
    assert Span(q.wndMin, i) <= Ahead(q);
  }

  /** When the scan goes all the way around, nothing is cleared and every mark goes stale. */
  lemma AdvanceFills(q: Queue)
    requires Pending(q) && Scan(q, q.wndMin) == End(q)
    ensures !Inv(Advance(q))
    ensures var r := Advance(q);
            r.nxtRcv == End(q) && r.marks == q.marks && forall x: nat :: q.wndMin <= x < End(q) ==> Marked(r, x)
  {
    hide Slot;
    ScanStops(q, q.wndMin);
    SlotAdd(q.wndMin, |q.marks|, |q.marks|);
    var r := Advance(q);
    assert r.marks == q.marks;
    forall x: nat | q.wndMin <= x < End(q)
      ensures Marked(r, x)
    {
      assert Marked(q, x);
    }
    assert Marked(r, q.wndMin);
  }

  // ------------------------------------------------------------ a segment

  /** With the segment's bytes the whole ring would be stored ahead of the scan. */
  ghost predicate FillsRing(q: Queue, s: nat, n: nat)
    requires Shaped(q)
  {
    Slow(q, s) && forall p: nat :: q.wndMin <= p < End(q) ==> Marked(q, p) || s <= p < s + n
  }

  function Stored(q: Queue, s: nat, data: seq<Byte>): (r: Queue)
    requires Shaped(q)
    ensures Shaped(r)
  {
    var last := if q.maxSeq < s + |data| then s + |data| else q.maxSeq;
    MarkRun(q.(buf := Put(q.buf, s, data), hole := true, maxSeq := last), s, |data|)
  }

  lemma StoredPending(q: Queue, s: nat, data: seq<Byte>)
    requires Inv(q) && Acceptable(q, s, |data|)
    ensures var m := Stored(q, s, data);
            && Pending(m) && m.wndMin == q.wndMin && m.nxtRcv == q.nxtRcv
            && m.buf == Put(q.buf, s, data)
            && forall x: nat :: q.wndMin <= x < End(q) ==> (Marked(m, x) <==> Marked(q, x) || s <= x < s + |data|)
  {
    hide Slot;
    var last := if q.maxSeq < s + |data| then s + |data| else q.maxSeq;
    var b := q.(buf := Put(q.buf, s, data), hole := true, maxSeq := last);
    forall x: nat
      ensures Marked(b, x) == Marked(q, x)
    {
    }
    assert Ahead(b) == Ahead(q);
    MarkRunCharges(b, s, |data|);
  }

  lemma FillsRingIsFullScan(q: Queue, s: nat, data: seq<Byte>)
    requires Inv(q) && Acceptable(q, s, |data|) && Slow(q, s)
    ensures var m := Stored(q, s, data);
            FillsRing(q, s, |data|) <==> Scan(m, m.wndMin) == End(m)
  {
    hide Slot;
    StoredPending(q, s, data);
    var m := Stored(q, s, data);
    ScanStops(m, q.wndMin);
    if FillsRing(q, s, |data|) {
      assert Marked(m, End(q) - 1);
    }
  }

  lemma InOrderInv(q: Queue, s: nat, data: seq<Byte>)
    requires Inv(q) && Acceptable(q, s, |data|) && !Slow(q, s)
    ensures Inv(Accept(q, s, data))
  {
    hide Slot;
    var r := Accept(q, s, data);
    forall x: nat
      ensures Marked(r, x) == Marked(q, x)
    {
    }
    assert Ahead(r) == Ahead(q);
  }

  /** A segment keeps the queue sound, and with it the window accounting, exactly when it does not
      complete a full ring in one scan. */
  lemma AcceptSound(q: Queue, s: nat, data: seq<Byte>)
    requires Inv(q) && Acceptable(q, s, |data|)
    ensures Inv(Accept(q, s, data)) <==> !FillsRing(q, s, |data|)
  {
    hide Slot, Inv, Pending, Advance;
    if Slow(q, s) {
      StoredPending(q, s, data);
      FillsRingIsFullScan(q, s, data);
      var m := Stored(q, s, data);
      assert Accept(q, s, data) == Advance(m);
      if Scan(m, m.wndMin) == m.wndMin {
        AdvanceStays(m);
      } else if Scan(m, m.wndMin) < End(m) {
        AdvanceClears(m);
      } else {
        AdvanceFills(m);
      }
    } else {
      InOrderInv(q, s, data);
    }
  }

  /** Positions whose byte the queue claims to have. */
  predicate Has(q: Queue, p: nat)
    requires Shaped(q)
  {
    q.wndMin <= p < End(q) && (p < q.nxtRcv || Marked(q, p))
  }

  /** A segment adds exactly its own positions to those the queue has. */
  lemma AcceptHas(q: Queue, s: nat, data: seq<Byte>, p: nat)
    requires Inv(q) && Acceptable(q, s, |data|) && !FillsRing(q, s, |data|)
    ensures Has(Accept(q, s, data), p) <==> Has(q, p) || s <= p < s + |data|
    ensures Accept(q, s, data).buf == Put(q.buf, s, data)
    ensures Accept(q, s, data).wndMin == q.wndMin && Accept(q, s, data).nxtRcv >= q.nxtRcv
  {
    hide Slot, Inv, Pending;
    HasBounds(q);
    if Slow(q, s) {
      StoredPending(q, s, data);
      FillsRingIsFullScan(q, s, data);
      var m := Stored(q, s, data);
      ScanStops(m, m.wndMin);
      if Scan(m, m.wndMin) == m.wndMin {
        AdvanceStays(m);
      } else {
        AdvanceClears(m);
      }
    } else {
      assert forall x: nat :: Marked(Accept(q, s, data), x) == Marked(q, x);
    }
  }

  /** Where a segment takes nxtRcv: with bytes waiting to be read and a hole somewhere it stays, because the
      scan starts at the window's edge; otherwise it goes to the first byte that is missing. */
  lemma AcceptAdvances(q: Queue, s: nat, data: seq<Byte>)
    requires Inv(q) && Acceptable(q, s, |data|) && !FillsRing(q, s, |data|)
    ensures var r := Accept(q, s, data);
            if Slow(q, s) && q.wndMin < q.nxtRcv then r.nxtRcv == q.nxtRcv
            else r.nxtRcv >= q.nxtRcv && !Has(r, r.nxtRcv)
  {
    hide Slot, Ahead;
    if Slow(q, s) {
      StoredPending(q, s, data);
      FillsRingIsFullScan(q, s, data);
      var m := Stored(q, s, data);
      ScanStops(m, m.wndMin);
      if Scan(m, m.wndMin) == m.wndMin {
        AdvanceStays(m);
      } else {
        AdvanceClears(m);
      }
    } else {
      assert forall x: nat :: Marked(Accept(q, s, data), x) == Marked(q, x);
    }
  }

  /** A segment that continues where the bytes in order end moves nxtRcv if and only if there is no hole
      behind it or the application has read everything before it. */
  lemma FillingAdvances(q: Queue, data: seq<Byte>)
    requires Inv(q) && Acceptable(q, q.nxtRcv, |data|) && !FillsRing(q, q.nxtRcv, |data|)
    ensures Accept(q, q.nxtRcv, data).nxtRcv > q.nxtRcv <==> !q.hole || q.wndMin == q.nxtRcv
  {
    hide Slot, Inv, Accept, FillsRing;
    HasBounds(q);
    AcceptAdvances(q, q.nxtRcv, data);
    AcceptHas(q, q.nxtRcv, data, q.nxtRcv);
  }

  lemma HasBounds(q: Queue)
    requires Inv(q)
    ensures Shaped(q) && q.wndMin <= q.nxtRcv <= End(q)
  {
  }

  // ------------------------------------------------------------ a read

  lemma ReadSound(q: Queue, want: nat)
    requires Inv(q)
    ensures Inv(Dequeue(q, want).0)
    ensures forall p: nat :: Has(Dequeue(q, want).0, p) <==> Has(q, p) && p >= q.wndMin + |Dequeue(q, want).1|
  {
    hide Slot;
    var r := Dequeue(q, want).0;
    var k := Taken(q, want);
    forall p: nat | End(q) <= p < End(r)
      ensures !Marked(r, p)
    {
      SlotBack(p, |q.buf|);
      assert !Marked(q, p - |q.buf|);
    }
    assert forall p: nat :: Marked(r, p) == Marked(q, p);
    assert Ahead(r) == Ahead(q);
  }

  /** As many bytes as were asked for, or all there are in order; they leave the queue and nothing else
      changes. */
  ghost predicate Delivers(q: Queue, want: nat, r: Queue, data: seq<Byte>) {
    && |data| <= want && (|data| < want ==> r.wndMin == r.nxtRcv)
    && r == q.(wndMin := q.wndMin + |data|, wndSize := q.wndSize + |data|)
    && Shaped(q) && forall i :: 0 <= i < |data| ==> data[i] == q.buf[Slot(q.wndMin + i, |q.buf|)]
  }

  lemma ReadDelivers(q: Queue, want: nat)
    requires Shaped(q) && q.wndMin <= q.nxtRcv
    ensures Delivers(q, want, Dequeue(q, want).0, Dequeue(q, want).1)
  {
    hide Slot;
  }

  lemma SlotBack(p: nat, n: nat)
    requires n > 0 && p >= n
    ensures Slot(p - n, n) == Slot(p, n)
  {
    SlotAdd(p - n, n, n);
  }

  // ------------------------------------------------------------ one event

  datatype Event = Segment(s: nat, data: seq<Byte>) | Read(want: nat)

  /** Segments outside the window, or without data, leave the queue alone. */
  function Step(q: Queue, e: Event): (r: (Queue, seq<Byte>))
    requires Shaped(q)
    ensures Shaped(r.0)
  {
    match e
    case Segment(s, data) => (if Acceptable(q, s, |data|) then Accept(q, s, data) else q, [])
    case Read(want) => if q.wndMin <= q.nxtRcv then Dequeue(q, want) else (q, [])
  }

  /** A segment with data that starts at or behind nxtRcv and ends inside the window is stored, byte for byte;
      every other segment leaves the queue as it is. */
  lemma SegmentTaken(q: Queue, s: nat, data: seq<Byte>)
    requires Inv(q)
    ensures var r := Step(q, Segment(s, data)).0;
            if data != [] && q.nxtRcv <= s && s + |data| <= q.wndMin + |q.buf|
            then |r.buf| == |q.buf|
                 && forall p: nat :: s <= p < s + |data| ==> Has(r, p) && r.buf[Slot(p, |r.buf|)] == data[p - s]
            else r == q
  {
    hide Slot, Inv, Accept, FillsRing, Has;
    HasBounds(q);
    if Acceptable(q, s, |data|) {
      var r := Step(q, Segment(s, data)).0;
      assert r == Accept(q, s, data);
      AcceptBuf(q, s, data);
      forall p: nat | s <= p < s + |data|
        ensures Has(r, p) && r.buf[Slot(p, |r.buf|)] == data[p - s]
      {
        PutAt(q.buf, s, data, p);
        if FillsRing(q, s, |data|) {
          FilledHas(q, s, data, p);
        } else {
          AcceptHas(q, s, data, p);
        }
      }
    }
  }

  lemma AcceptBuf(q: Queue, s: nat, data: seq<Byte>)
    requires Inv(q) && Acceptable(q, s, |data|)
    ensures Accept(q, s, data).buf == Put(q.buf, s, data)
  {
    hide Slot, Put;
    if Slow(q, s) { StoredPending(q, s, data); }
  }

  lemma FilledHas(q: Queue, s: nat, data: seq<Byte>, p: nat)
    requires Inv(q) && Acceptable(q, s, |data|) && FillsRing(q, s, |data|) && s <= p < s + |data|
    ensures Has(Accept(q, s, data), p)
  {
    hide Slot, FillsRing, Put;
    StoredPending(q, s, data);
    FillsIsSlow(q, s, |data|);
    FillsRingIsFullScan(q, s, data);
    AdvanceFills(Stored(q, s, data));
  }

  lemma FillsIsSlow(q: Queue, s: nat, n: nat)
    requires Shaped(q) && FillsRing(q, s, n)
    ensures Slow(q, s)
  {
  }

  /** The window, the bytes waiting to be read and the bytes stored ahead share the ring. */
  lemma WindowConserved(q: Queue)
    requires Inv(q)
    ensures q.wndSize + (q.nxtRcv - q.wndMin) + |Ahead(q)| == |q.buf|
    ensures 0 <= q.wndSize <= |q.buf|
  {
    hide Slot;
    assert Ahead(q) <= Span(q.nxtRcv, End(q));
    SubsetSize(Ahead(q), Span(q.nxtRcv, End(q)));
  }

  // ------------------------------------------------------------ the code

  class ReceiveQueue {
    const buf: array<Byte>
    const bufState: array<bool>
    var wndMin: nat
    var nxtRcv: nat
    var wndSize: int
    var isWndHole: bool
    var maxSeqNum: nat

    ghost function State(): Queue
      reads this, buf, bufState
    {
      Queue(wndMin, nxtRcv, wndSize, buf[..], bufState[..], isWndHole, maxSeqNum)
    }

    constructor (isn: nat, size: nat)
      requires size > 0
      ensures State() == Empty(isn, size) && fresh(buf) && fresh(bufState)
    {
      buf := new Byte[size](_ => 0);
      bufState := new bool[size](_ => false);
      wndMin, nxtRcv, wndSize := isn, isn, size;
      isWndHole, maxSeqNum := false, 0;
    }

    /** Marks the slots lo up to hi, which hold the positions from p on. */
    method MarkSlots(lo: nat, hi: nat, ghost p: nat)
      requires buf.Length == bufState.Length > 0 && lo <= hi <= bufState.Length
      requires lo < hi ==> Slot(p, bufState.Length) == lo
      modifies this`wndSize, bufState
      ensures State() == MarkRun(old(State()), p, hi - lo)
    {
      hide Slot;
      var i := lo;
      while i < hi
        invariant lo <= i <= hi
        invariant MarkRun(State(), p + (i - lo), hi - i) == MarkRun(old(State()), p, hi - lo)
      {
        ghost var q := State();
        SlotAdd(p, i - lo, bufState.Length);
        if !bufState[i] {
          bufState[i] := true;
          wndSize := wndSize - 1;
          assert bufState[..] == q.marks[i := true];
        }
        assert buf[..] == q.buf;
        assert State() == MarkAt(q, p + (i - lo));
        i := i + 1;
      }
    }

    /** Turns the marks off from slot low to slot high. */
    method ClearSlots(low: nat, high: nat)
      requires low < bufState.Length && high < bufState.Length
      modifies bufState
      ensures bufState[..] == Cleared(old(bufState[..]), low, high)
    {
      if low < high {
        for i := low to high + 1
          invariant forall j :: 0 <= j < bufState.Length ==>
            bufState[j] == (old(bufState[j]) && !(low <= j < i))
        {
          bufState[i] := false;
        }
      } else if low > high {
        for i := low to bufState.Length
          invariant forall j :: 0 <= j < bufState.Length ==>
            bufState[j] == (old(bufState[j]) && !(low <= j < i))
        {
          bufState[i] := false;
        }
        for i := 0 to high + 1
          invariant forall j :: 0 <= j < bufState.Length ==>
            bufState[j] == (old(bufState[j]) && !(low <= j) && !(j < i))
        {
          bufState[i] := false;
        }
      }
    }

    /** _update_rcv_window_and_ack. */
    method UpdateByScan() returns (isNew: bool)
      requires buf.Length == bufState.Length > 0 && wndMin <= nxtRcv
      modifies this`nxtRcv, this`isWndHole, this`maxSeqNum, bufState
      ensures State() == Advance(old(State()))
      ensures isNew <==> nxtRcv > wndMin
    {
      hide Slot;
      ghost var q := State();
      var index := wndMin;
      while index < wndMin + buf.Length && index < maxSeqNum && bufState[Slot(index, bufState.Length)]
        invariant wndMin <= index <= wndMin + buf.Length
        invariant Scan(q, index) == Scan(q, wndMin)
      {
        index := index + 1;
      }
      assert index == Scan(q, wndMin);
      if index > nxtRcv {
        nxtRcv := index;
      }
      isNew := nxtRcv > wndMin;
      if nxtRcv == maxSeqNum {
        isWndHole := false;
        maxSeqNum := 0;
      }
      if index != wndMin {
        ClearSlots(Slot(wndMin, bufState.Length), Slot(index, bufState.Length));
      }
      assert buf[..] == q.buf;
    }

    /** Stores the segment's bytes and marks them unless they arrive in order. */
    method Store(seqNum: nat, data: seq<Byte>)
      requires buf.Length == bufState.Length > 0 && 0 < |data| <= buf.Length
      modifies this`wndSize, this`isWndHole, this`maxSeqNum, buf, bufState
      ensures State() == if Slow(old(State()), seqNum) then Stored(old(State()), seqNum, data)
                         else old(State()).(buf := Put(old(buf[..]), seqNum, data))
    {
      hide Slot, Put, Stored;
      var low, high := Slot(seqNum, buf.Length), Slot(seqNum + |data|, buf.Length);
      SlotAdd(seqNum, |data|, buf.Length);
      var slow := nxtRcv != seqNum || isWndHole;
      if low < high {
        StoreStraight(seqNum, data, low, slow);
      } else {
        StoreWrapped(seqNum, data, low, slow);
      }
    }

    method StoreStraight(seqNum: nat, data: seq<Byte>, low: nat, slow: bool)
      requires buf.Length == bufState.Length > 0 && 0 < |data| <= buf.Length
      requires low == Slot(seqNum, buf.Length) && low + |data| <= buf.Length
      modifies this`wndSize, this`isWndHole, this`maxSeqNum, buf, bufState
      ensures State() == if slow then Stored(old(State()), seqNum, data)
                         else old(State()).(buf := Put(old(buf[..]), seqNum, data))
    {
      hide Slot, Put, MarkRun;
      ghost var q := State();
      PutStraight(q.buf, seqNum, data);
      CopyIn(buf, low, data);
      assert buf[..] == Put(q.buf, seqNum, data) && bufState[..] == q.marks;
      if slow {
        Raise(seqNum + |data|);
        MarkSlots(low, low + |data|, seqNum);
      }
    }

    method StoreWrapped(seqNum: nat, data: seq<Byte>, low: nat, slow: bool)
      requires buf.Length == bufState.Length > 0 && 0 < |data| <= buf.Length
      requires low == Slot(seqNum, buf.Length) && low + |data| >= buf.Length
      modifies this`wndSize, this`isWndHole, this`maxSeqNum, buf, bufState
      ensures State() == if slow then Stored(old(State()), seqNum, data)
                         else old(State()).(buf := Put(old(buf[..]), seqNum, data))
    {
      hide Slot, Put, MarkRun;
      ghost var q := State();
      CopyAround(seqNum, data, low);
      assert bufState[..] == q.marks;
      if slow {
        Raise(seqNum + |data|);
        MarkAround(seqNum, |data|, low);
      }
    }

    /** The two copies around the ring's end. */
    method CopyAround(seqNum: nat, data: seq<Byte>, low: nat)
      requires 0 < |data| <= buf.Length && low == Slot(seqNum, buf.Length) && low + |data| >= buf.Length
      modifies buf
      ensures buf[..] == Put(old(buf[..]), seqNum, data)
    {
      hide Slot, Put;
      ghost var b := buf[..];
      var k := buf.Length - low;
      PutWrapped(b, seqNum, data);
      CopyIn(buf, low, data[..k]);
      ghost var c: seq<Byte> := buf[..];
      EndsThere(b, low, data[..k]);
      CopyIn(buf, 0, data[k..]);
      StartsThere(c, data[k..]);
    }

    /** The two marking loops around the ring's end. */
    method MarkAround(seqNum: nat, n: nat, low: nat)
      requires buf.Length == bufState.Length > 0 && 0 < n <= buf.Length
      requires low == Slot(seqNum, buf.Length) && low + n >= buf.Length
      modifies this`wndSize, bufState
      ensures State() == MarkRun(old(State()), seqNum, n)
    {
      hide Slot, MarkRun;
      var k := buf.Length - low;
      SlotAdd(seqNum, k, buf.Length);
      MarkRunSplit(State(), seqNum, k, n - k);
      MarkSlots(low, buf.Length, seqNum);
      MarkSlots(0, n - k, seqNum + k);
    }

    method Raise(last: nat)
      modifies this`isWndHole, this`maxSeqNum
      ensures isWndHole && maxSeqNum == if old(maxSeqNum) < last then last else old(maxSeqNum)
    {
      isWndHole := true;
      if maxSeqNum < last {
        maxSeqNum := last;
      }
    }

    /** The data part of rcv_packet_tcp, with update_rcv_window_and_ack. */
    method Receive(seqNum: nat, data: seq<Byte>) returns (isNew: bool)
      requires buf.Length == bufState.Length > 0 && wndMin <= nxtRcv
      requires wndMin + buf.Length <= SEQ_MAX && seqNum + |data| <= SEQ_MAX
      modifies this, buf, bufState
      ensures State() == Step(old(State()), Segment(seqNum, data)).0
      ensures isNew <==> Acceptable(old(State()), seqNum, |data|) && nxtRcv > wndMin
    {
      hide Slot, Advance;
      isNew := false;
      if |data| != 0 && seqNum >= nxtRcv && seqNum + |data| <= wndMin + buf.Length {
        ghost var q := State();
        Store(seqNum, data);
        StoredKeeps(q, seqNum, data);
        if nxtRcv == seqNum && !isWndHole {
          nxtRcv := nxtRcv + |data|;
          wndSize := wndSize - |data|;
          isNew := true;
        } else {
          isNew := UpdateByScan();
        }
      }
    }

    /** dequeue_packet_tcp: the application asks for at least one byte; nothing comes back, and
        nothing changes, while no byte is available in order. */
    method Dequeue(want: nat) returns (data: seq<Byte>)
      requires buf.Length == bufState.Length > 0 && want > 0
      requires wndMin <= nxtRcv <= wndMin + buf.Length
      modifies this`wndMin, this`wndSize
      ensures (State(), data) == Step(old(State()), Read(want))
      ensures Delivers(old(State()), want, State(), data)
    {
      hide Slot;
      ReadDelivers(State(), want);
      hide Delivers;
      if nxtRcv - wndMin == 0 {
        return [];
      }
      var k := want;
      if nxtRcv - wndMin < k {
        k := nxtRcv - wndMin;
      }
      data := CopyOut(k);
      wndSize := wndSize + k;
      wndMin := wndMin + k;
    }

    /** The first k bytes of the window, in one piece or two. */
    method CopyOut(k: nat) returns (data: seq<Byte>)
      requires 0 < k <= buf.Length
      ensures data == Get(buf[..], wndMin, k)
    {
      hide Slot;
      var n := buf.Length;
      var low, high := Slot(wndMin, n), Slot(wndMin + k, n);
      SlotAdd(wndMin, k, n);
      if low < high {
        GetStraight(buf[..], wndMin, k);
        data := buf[low..low + k];
      } else {
        GetWrapped(buf[..], wndMin, k);
        data := buf[low..] + buf[..k - (n - low)];
      }
    }
  }

  lemma EndsThere(b: seq<Byte>, low: nat, data: seq<Byte>)
    requires low + |data| == |b|
    ensures b[..low] + data + b[low + |data|..] == b[..low] + data
  {
  }

  lemma StartsThere(b: seq<Byte>, data: seq<Byte>)
    requires |data| <= |b|
    ensures b[..0] + data + b[0 + |data|..] == data + b[|data|..]
  {
  }

  lemma {:induction false} MarkRunSplit(q: Queue, p: nat, j: nat, k: nat)
    requires Shaped(q)
    ensures MarkRun(MarkRun(q, p, j), p + j, k) == MarkRun(q, p, j + k)
    decreases j
  {
    if j > 0 { MarkRunSplit(MarkAt(q, p), p + 1, j - 1, k); }
  }

  lemma {:induction false} MarkRunFields(q: Queue, p: nat, n: nat)
    requires Shaped(q)
    ensures MarkRun(q, p, n).hole == q.hole && MarkRun(q, p, n).nxtRcv == q.nxtRcv && MarkRun(q, p, n).wndMin == q.wndMin
    decreases n
  {
    if n > 0 { MarkRunFields(MarkAt(q, p), p + 1, n - 1); }
  }

  lemma StoredKeeps(q: Queue, s: nat, data: seq<Byte>)
    requires Shaped(q)
    ensures Stored(q, s, data).hole && Stored(q, s, data).nxtRcv == q.nxtRcv && Stored(q, s, data).wndMin == q.wndMin
    ensures Accept(q, s, data) == if Slow(q, s) then Advance(Stored(q, s, data))
              else q.(buf := Put(q.buf, s, data), nxtRcv := q.nxtRcv + |data|, wndSize := q.wndSize - |data|)
  {
    var last := if q.maxSeq < s + |data| then s + |data| else q.maxSeq;
    MarkRunFields(q.(buf := Put(q.buf, s, data), hole := true, maxSeq := last), s, |data|);
  }
}
