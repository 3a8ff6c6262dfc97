/** The send side of network/tcp.c and network/tcp_socket.c in the data phase: the send ring, the
    segmenter, the acknowledgement and retransmission logic and the congestion window. */
module TcpSend {
  import opened Basics
  import opened Rings
  import opened TcpReassembly
  import opened TcpReceive

  const TWO_31: nat := 0x8000_0000
  const TWO_32: nat := 0x1_0000_0000

  // ------------------------------------------------------------ segmentation

  /** The k bytes from position p on as one segment, or as two when they pass the ring's end. */
  function Cut(buf: seq<Byte>, p: nat, k: nat): seq<Event>
    requires 0 < k <= |buf|
  {
    var off := Slot(p, |buf|);
    if off + k <= |buf| then [Segment(p, buf[off..off + k])]
    else
      var k1 := |buf| - off;
      [Segment(p, buf[off..]), Segment(p + k1, buf[..k - k1])]
  }

  /** The segments that carry len bytes from position p on, at most smss bytes at a time. */
  function Segments(buf: seq<Byte>, p: nat, len: nat, smss: nat): seq<Event>
    requires 0 < smss <= |buf|
    decreases len
  {
    if len >= smss then Cut(buf, p, smss) + Segments(buf, p + smss, len - smss, smss)
    else if len > 0 then Cut(buf, p, len)
    else []
  }

  function Payload(es: seq<Event>): seq<Byte> {
    if es == [] then []
    else (if es[0].Segment? then es[0].data else []) + Payload(es[1..])
  }

  /** Segments follow one another without gap from position p up to position e. */
  ghost predicate Consecutive(es: seq<Event>, p: nat, e: nat)
    decreases |es|
  {
    if es == [] then p == e
    else es[0].Segment? && es[0].s == p && |es[0].data| > 0 && Consecutive(es[1..], p + |es[0].data|, e)
  }

  ghost predicate AtMost(es: seq<Event>, smss: nat) {
    forall i :: 0 <= i < |es| ==> es[i].Segment? && 0 < |es[i].data| <= smss
  }

  lemma {:induction false} Joined(a: seq<Event>, b: seq<Event>, p: nat, m: nat, e: nat)
    requires Consecutive(a, p, m) && Consecutive(b, m, e)
    ensures Consecutive(a + b, p, e) && Payload(a + b) == Payload(a) + Payload(b)
    decreases |a|
  {
    if a == [] {
      assert a + b == b;
    } else {
      Joined(a[1..], b, p + |a[0].data|, m, e);
      assert (a + b)[1..] == a[1..] + b;
      Reassociate(a[0].data, Payload(a[1..]), Payload(b));
    }
  }

  lemma CutWhole(buf: seq<Byte>, p: nat, k: nat)
    requires 0 < k <= |buf|
    ensures Consecutive(Cut(buf, p, k), p, p + k) && AtMost(Cut(buf, p, k), k)
    ensures Payload(Cut(buf, p, k)) == Get(buf, p, k)
  {
    hide Slot, Consecutive, Payload, Get;
    var off := Slot(p, |buf|);
    var es := Cut(buf, p, k);
    if off + k <= |buf| {
      GetStraight(buf, p, k);
      Single(p, buf[off..off + k]);
    } else {
      var k1 := |buf| - off;
      GetWrapped(buf, p, k);
      Single(p, buf[off..]);
      Single(p + k1, buf[..k - k1]);
      assert es == [Segment(p, buf[off..])] + [Segment(p + k1, buf[..k - k1])];
      Joined([Segment(p, buf[off..])], [Segment(p + k1, buf[..k - k1])], p, p + k1, p + k);
    }
  }

  lemma Single(p: nat, data: seq<Byte>)
    requires |data| > 0
    ensures Consecutive([Segment(p, data)], p, p + |data|) && Payload([Segment(p, data)]) == data
  {
    assert [Segment(p, data)][1..] == [];
  }

  /** Segmentation preserves the stream: consecutive sequence numbers, no segment above smss, and
      the payloads are together exactly the bytes asked for, across the ring's end too. */
  lemma {:induction false} SegmentsWhole(buf: seq<Byte>, p: nat, len: nat, smss: nat)
    requires 0 < smss <= |buf|
    ensures var es := Segments(buf, p, len, smss);
            && Consecutive(es, p, p + len) && AtMost(es, smss)
            && Payload(es) == Get(buf, p, len)
    decreases len
  {
    hide Slot, Cut;
    if len >= smss {
      CutWhole(buf, p, smss);
      SegmentsWhole(buf, p + smss, len - smss, smss);
      Joined(Cut(buf, p, smss), Segments(buf, p + smss, len - smss, smss), p, p + smss, p + len);
      GetSplit(buf, p, len, smss);
    } else if len > 0 {
      CutWhole(buf, p, len);
    }
  }

  /** Consecutive segments over bytes of a stream are cut from that stream. */
  lemma {:induction false} WholeIsCut(es: seq<Event>, p: nat, e: nat, stream: nat -> Byte)
    requires Consecutive(es, p, e) && p <= e && Payload(es) == Stretch(stream, p, e - p)
    ensures forall i :: 0 <= i < |es| ==> CutFrom(stream, es[i])
    decreases |es|
  {
    if es != [] {
      var k := |es[0].data|;
      ConsecutiveBound(es[1..], p + k, e);
      PayloadSplits(es[0].data, Payload(es[1..]), stream, p);
      WholeIsCut(es[1..], p + k, e, stream);
      forall i | 0 <= i < |es|
        ensures CutFrom(stream, es[i])
      {
        if i > 0 { assert es[i] == es[1..][i - 1]; }
      }
    }
  }

  lemma PayloadSplits(a: seq<Byte>, b: seq<Byte>, stream: nat -> Byte, p: nat)
    requires a + b == Stretch(stream, p, |a| + |b|)
    ensures forall i :: 0 <= i < |a| ==> a[i] == stream(p + i)
    ensures b == Stretch(stream, p + |a|, |b|)
  {
    hide Stretch;
    assert forall i :: 0 <= i < |a| ==> (a + b)[i] == a[i];
    assert forall i :: 0 <= i < |b| ==> (a + b)[|a| + i] == b[i] && p + (|a| + i) == p + |a| + i;
  }

  lemma {:induction false} ConsecutiveBound(es: seq<Event>, p: nat, e: nat)
    requires Consecutive(es, p, e)
    ensures p <= e && |Payload(es)| == e - p
    decreases |es|
  {
    if es != [] { ConsecutiveBound(es[1..], p + |es[0].data|, e); }
  }

  // ------------------------------------------------------------ the connection

  datatype Limits = Limits(smss: nat, size: nat)

  /** The source's constants. */
  const GOS := Limits(1454, 16384 * 256)

  predicate Sane(l: Limits) {
    0 < l.smss && 4 * l.smss <= l.size < TWO_31
  }

  datatype Conn = Conn(
    wndMin: nat,      // first byte not acknowledged
    nxtSnd: nat,      // next byte to transmit
    cur: nat,         // end of the bytes queued by the application
    wndSize: nat,     // min of congestion window and peer's window
    cwnd: nat,
    ssthresh: nat,
    dupAck: nat,
    flight: nat,
    rcvAdv: nat,      // window last advertised by the peer
    maxAdv: nat)      // largest window it ever advertised

  function Min(a: nat, b: nat): nat { if a < b then a else b }

  function Max(a: nat, b: nat): nat { if a < b then b else a }

  /** A number of bytes to hand to the segmenter, from the given position on. */
  datatype Sending = Sending(conn: Conn, start: nat, len: nat)

  /** update_snd_window without duplicate acknowledgements pending: window, silly-window avoidance. */
  function SendNew(l: Limits, c: Conn, ack: nat, skipAck: bool): Sending
    requires c.nxtSnd <= c.cur && (skipAck || ack <= c.nxtSnd) && c.wndMin <= c.nxtSnd && l.smss > 0
  {
    var wndMax := c.wndMin + c.wndSize;
    var c1 := if skipAck then c else c.(wndMin := ack);
    if c.cur <= wndMax || c.nxtSnd <= wndMax then
      var right := if c.cur <= wndMax then c.cur else wndMax;
      var w := right - c.nxtSnd;
      var len := if c.nxtSnd - c1.wndMin == 0 then w
                 else if w >= l.smss then w - w % l.smss
                 else if w >= c.maxAdv / 2 then w
                 else 0;
      Sending(c1.(nxtSnd := c.nxtSnd + len, flight := c.nxtSnd - c1.wndMin), c.nxtSnd, len)
    else
      Sending(c1, c.nxtSnd, 0)
  }

  /** One more full segment after the first duplicates, if window and queue allow. */
  function SendOneMore(l: Limits, c: Conn, limited: bool): Sending
    requires c.wndMin <= c.nxtSnd <= c.cur < TWO_32
  {
    var wndMax := c.wndMin + c.wndSize;
    var w := if wndMax > c.nxtSnd then wndMax - c.nxtSnd else 0;
    if w >= l.smss && (limited ==> c.nxtSnd - c.wndMin + l.smss <= c.cwnd + 2 * l.smss) && c.cur >= c.nxtSnd + l.smss
    then Sending(c.(nxtSnd := c.nxtSnd + l.smss, flight := (c.nxtSnd - c.cur) % TWO_32), c.nxtSnd, l.smss)
    else Sending(c, if limited then 3 else c.nxtSnd, 0)
  }

  function UpdateSnd(l: Limits, c: Conn, ack: nat, skipAck: bool): Sending
    requires c.wndMin <= c.nxtSnd <= c.cur < TWO_32 && l.smss > 0
    requires skipAck || ack <= c.nxtSnd
  {
    if c.dupAck > 2 && ack == 0 then Sending(c, 0, 0)
    else if c.dupAck == 0 then SendNew(l, c, ack, skipAck)
    else if c.dupAck == 1 || c.dupAck == 2 then SendOneMore(l, c, true)
    else if c.dupAck == 3 then Sending(c, ack, l.smss)
    else SendOneMore(l, c, false)
  }

  /** The increment of congestion avoidance. */
  function Growth(smss: nat, cwnd: nat): nat
    requires cwnd > 0
  {
    (smss * smss) / cwnd
  }

  /** rcv_ack up to its call of update_snd_window. */
  function AckWindow(l: Limits, c: Conn, ack: nat): Conn
    requires c.cwnd > 0 && c.ssthresh > 0 && c.wndMin <= ack
  {
    var c1 :=
      if c.wndMin < ack then
        var d := if c.nxtSnd < ack then c.(nxtSnd := ack) else c;
        var e := if d.dupAck > 0 then d.(dupAck := 0, cwnd := d.ssthresh) else d;
        if e.cwnd <= e.ssthresh then e.(cwnd := e.cwnd + l.smss)
        else e.(cwnd := e.cwnd + Growth(l.smss, e.cwnd))
      else
        var d := c.(dupAck := c.dupAck + 1);
        if d.dupAck == 3 then
          var t := Max(d.flight / 2, 2 * l.smss);
          d.(ssthresh := t, cwnd := t + 3 * l.smss)
        else d;
    var c2 := if c1.cwnd > l.size then c1.(cwnd := l.size) else c1;
    c2.(wndSize := Min(c2.cwnd, c2.rcvAdv))
  }

  /** A retransmission timeout up to its call of update_snd_window. */
  function TimeoutWindow(l: Limits, c: Conn): Conn {
    c.(cwnd := l.smss, nxtSnd := c.wndMin, wndSize := Min(l.smss, c.rcvAdv), dupAck := 0)
  }

  /** A new connection. */
  function Opened(l: Limits, isn: nat, ssthresh: nat): Conn {
    Conn(isn, isn, isn, l.smss, l.smss, ssthresh, 0, 0, 0, 0)
  }

  // ------------------------------------------------------------ invariants

  ghost predicate Ordered(l: Limits, c: Conn) {
    c.wndMin <= c.nxtSnd <= c.cur <= c.wndMin + l.size && c.cur < TWO_32
  }

  ghost predicate Bounded(l: Limits, c: Conn) {
    && l.smss <= c.cwnd <= l.size
    && l.smss <= c.ssthresh < TWO_31 && c.flight < TWO_32
  }

  ghost predicate Sound(l: Limits, c: Conn) {
    Ordered(l, c) && Bounded(l, c)
  }

  lemma SendNewSound(l: Limits, c: Conn, ack: nat, skipAck: bool)
    requires Sane(l) && Sound(l, c) && (skipAck || c.wndMin <= ack <= c.nxtSnd)
    ensures var r := SendNew(l, c, ack, skipAck);
            && Sound(l, r.conn) && r.conn.cur == c.cur
            && r.conn.wndMin == (if skipAck then c.wndMin else ack)
            && r.conn.nxtSnd == c.nxtSnd + r.len && r.start == c.nxtSnd
            && (r.len > 0 ==> r.conn.nxtSnd <= c.wndMin + c.wndSize)
  {
  }

  lemma SendOneMoreSound(l: Limits, c: Conn, limited: bool)
    requires Sane(l) && Sound(l, c)
    ensures var r := SendOneMore(l, c, limited);
            && Sound(l, r.conn) && r.conn.cur == c.cur && r.conn.wndMin == c.wndMin
            && r.conn.nxtSnd == c.nxtSnd + r.len && (r.len > 0 ==> r.start == c.nxtSnd)
            && (r.len > 0 ==> r.conn.nxtSnd <= c.wndMin + c.wndSize)
  {
  }

  /** What is handed to the segmenter is queued and unacknowledged; only the third duplicate can ask
      for more than is queued. */
  ghost predicate InQueue(r: Sending) {
    r.len > 0 ==> r.conn.wndMin <= r.start && r.start + r.len <= r.conn.cur
  }

  /** update_snd_window keeps the pointers in order; new data never passes the send window; and the
      bytes transmitted are bytes of the queue, except when a third duplicate finds less than a full
      segment there. */
  lemma UpdateSndSound(l: Limits, c: Conn, ack: nat, skipAck: bool)
    requires Sane(l) && Sound(l, c) && (skipAck || c.wndMin <= ack <= c.nxtSnd)
    requires c.dupAck == 3 && ack > 0 ==> ack == c.wndMin
    ensures var r := UpdateSnd(l, c, ack, skipAck);
            && Sound(l, r.conn) && r.conn.cur == c.cur && r.conn.wndMin >= c.wndMin
            && r.conn.nxtSnd >= c.nxtSnd
            && (r.conn.nxtSnd > c.nxtSnd ==> r.conn.nxtSnd <= c.wndMin + c.wndSize)
            && (InQueue(r) <==> !(c.dupAck == 3 && ack > 0 && c.cur < c.wndMin + l.smss))
  {
    hide SendNew, SendOneMore;
    if c.dupAck == 0 {
      SendNewSound(l, c, ack, skipAck);
    } else {
      SendOneMoreSound(l, c, c.dupAck == 1 || c.dupAck == 2);
    }
  }

  lemma AckBounded(l: Limits, c: Conn, ack: nat)
    requires Sane(l) && Bounded(l, c) && c.wndMin <= ack
    ensures Bounded(l, AckWindow(l, c, ack))
  {
    if c.wndMin < ack {
      QuotientNat(l.smss * l.smss, if c.dupAck > 0 then c.ssthresh else c.cwnd);
    }
  }

  lemma QuotientNat(a: nat, b: nat)
    requires b > 0
    ensures a / b >= 0
  {
  }

  /** An acknowledgement of queued bytes keeps order and bounds; the left edge reaches it. */
  lemma AckSound(l: Limits, c: Conn, ack: nat)
    requires Sane(l) && Sound(l, c) && c.wndMin <= ack <= c.cur
    ensures var d := AckWindow(l, c, ack);
            && Sound(l, d) && ack <= d.nxtSnd && d.wndMin == c.wndMin && d.cur == c.cur
            && d.nxtSnd == Max(c.nxtSnd, ack)
            && d.wndSize == Min(d.cwnd, d.rcvAdv)
            && (c.wndMin < ack ==> d.dupAck == 0) && (c.wndMin == ack ==> d.dupAck == c.dupAck + 1)
  {
    AckBounded(l, c, ack);
  }

  lemma TimeoutSound(l: Limits, c: Conn)
    requires Sane(l) && Sound(l, c)
    ensures Sound(l, TimeoutWindow(l, c)) && TimeoutWindow(l, c).cwnd == l.smss
  {
  }

  /** What a timeout sends again: one segment from the left edge, if peer and queue have room for it. */
  function Resent(l: Limits, c: Conn): nat
    requires c.wndMin <= c.cur
  {
    Min(Min(l.smss, c.rcvAdv), c.cur - c.wndMin)
  }

  /** After a timeout transmission starts over at the left edge. */
  lemma TimeoutSends(l: Limits, c: Conn)
    requires Sane(l) && Sound(l, c)
    ensures var r := UpdateSnd(l, TimeoutWindow(l, c), 0, true);
            && r.start == c.wndMin && r.len == Resent(l, c)
            && r.conn.nxtSnd == c.wndMin + r.len && r.conn.wndMin == c.wndMin && r.conn.cur == c.cur
            && r.conn.dupAck == 0 && r.conn.ssthresh == c.ssthresh
  {
  }

  // ------------------------------------------------------------ sequence numbers near the wrap

  /** CHK_OVRFLW: a value below the reference is taken to have wrapped, and 2^32 - 1 is added. */
  function ChkOvrflw(v: nat, ref: nat): nat {
    if v >= ref then v else v + (TWO_32 - 1)
  }

  /** Where update_snd_window moves the window's left edge for an acknowledgement, in 32 bits. */
  function LeftEdge(wndMin: nat, ack: nat): nat
    requires wndMin < TWO_32 && ack < TWO_32
  {
    (wndMin + (ChkOvrflw(ack, wndMin) - wndMin) % TWO_32) % TWO_32
  }

  /** The left edge moves to the acknowledgement if and only if that is not older than the window: a late
      duplicate below it is mistaken for a wrapped one and drags the edge to just before itself, and an
      acknowledgement of zero throws it to the end of the sequence space. */
  lemma StaleAckMovesBack(wndMin: nat, ack: nat)
    requires wndMin < TWO_32 && ack < TWO_32
    ensures LeftEdge(wndMin, ack) == ack <==> ack >= wndMin
    ensures 0 < ack < wndMin ==> LeftEdge(wndMin, ack) == ack - 1
    ensures 0 == ack < wndMin ==> LeftEdge(wndMin, ack) == TWO_32 - 1
  {
  }

  // ------------------------------------------------------------ the send ring's contents

  /** enqueue_packet_tcp's copies: when the data passes the ring's end, the second copy starts again
      at the beginning of the data. */
  function EnqueueBytes(buf: seq<Byte>, cur: nat, data: seq<Byte>): (r: seq<Byte>)
    requires 0 < |buf| && |data| <= |buf|
    ensures |r| == |buf|
  {
    var off := Slot(cur, |buf|);
    if |buf| - off > |data| then buf[..off] + data + buf[off + |data|..]
    else
      var k := |buf| - off;
      data[..|data| - k] + (buf[..off] + data[..k])[|data| - k..]
  }

  ghost predicate WrapHarmless(size: nat, cur: nat, data: seq<Byte>)
    requires size > 0
  {
    var k := size - Slot(cur, size);
    k < |data| ==> data[k..] == data[..|data| - k]
  }

  /** The queue stores the data it was given exactly when the data does not pass the ring's end, or
      happens to repeat itself there. */
  lemma EnqueueStores(buf: seq<Byte>, cur: nat, data: seq<Byte>)
    requires 0 < |buf| && |data| <= |buf|
    ensures EnqueueBytes(buf, cur, data) == Put(buf, cur, data) <==> WrapHarmless(|buf|, cur, data)
  {
    hide Slot;
    var off := Slot(cur, |buf|);
    if |buf| - off > |data| {
      PutStraight(buf, cur, data);
    } else {
      hide Put;
      var k := |buf| - off;
      PutWrapped(buf, cur, data);
      WrappedStores(buf, off, data, k);
    }
  }

  /** Two bytes into the last and first slot of a ring of four: the first byte lands in both. */
  lemma WrapRepeatsData()
    ensures EnqueueBytes([0, 0, 0, 0], 3, [7, 8]) == [7, 0, 0, 7] && Put([0, 0, 0, 0], 3, [7, 8]) == [8, 0, 0, 7]
  {
    var buf: seq<Byte>, data: seq<Byte> := [0, 0, 0, 0], [7, 8];
    PutWrapped(buf, 3, data);
    assert Slot(3, 4) == 3;
    assert data[..1] == [7] && data[1..] == [8] && buf[..3] == [0, 0, 0];
    assert ([0, 0, 0] + [7])[1..] == [0, 0, 7];
  }

  lemma WrappedStores(buf: seq<Byte>, off: nat, data: seq<Byte>, k: nat)
    requires off + k == |buf| && k <= |data| <= |buf|
    ensures var tail := (buf[..off] + data[..k])[|data| - k..];
            data[..|data| - k] + tail == data[k..] + tail <==> (k < |data| ==> data[k..] == data[..|data| - k])
  {
    SameFront(data[..|data| - k], data[k..], (buf[..off] + data[..k])[|data| - k..]);
  }

  lemma SameFront(a: seq<Byte>, b: seq<Byte>, tail: seq<Byte>)
    requires |a| == |b|
    ensures a + tail == b + tail <==> a == b
  {
    assert (a + tail)[..|a|] == a;
    assert (b + tail)[..|b|] == b;
  }

  ghost predicate Queued(buf: seq<Byte>, lo: nat, hi: nat, stream: nat -> Byte)
    requires |buf| > 0
  {
    forall p: nat :: lo <= p < hi ==> buf[Slot(p, |buf|)] == stream(p)
  }

  lemma EnqueueQueued(buf: seq<Byte>, lo: nat, cur: nat, data: seq<Byte>, stream: nat -> Byte)
    requires 0 < |buf| && lo <= cur && cur + |data| <= lo + |buf|
    requires Queued(buf, lo, cur, stream) && data == Stretch(stream, cur, |data|)
    requires WrapHarmless(|buf|, cur, data)
    ensures Queued(EnqueueBytes(buf, cur, data), lo, cur + |data|, stream)
  {
    hide Slot, EnqueueBytes;
    EnqueueStores(buf, cur, data);
    forall p: nat | lo <= p < cur + |data|
      ensures Put(buf, cur, data)[Slot(p, |buf|)] == stream(p)
    {
      PutAt(buf, cur, data, p);
      if p >= cur { assert data[p - cur] == stream(cur + (p - cur)); }
    }
  }

  /** Everything the segmenter emits from queued bytes is cut from the stream. */
  lemma EmittedCut(buf: seq<Byte>, lo: nat, hi: nat, stream: nat -> Byte, start: nat, len: nat, smss: nat)
    requires 0 < smss <= |buf| && Queued(buf, lo, hi, stream)
    requires len > 0 ==> lo <= start && start + len <= hi
    ensures forall i :: 0 <= i < |Segments(buf, start, len, smss)| ==> CutFrom(stream, Segments(buf, start, len, smss)[i])
  {
    hide Slot, CutFrom;
    SegmentsWhole(buf, start, len, smss);
    assert Get(buf, start, len) == Stretch(stream, start, len);
    WholeIsCut(Segments(buf, start, len, smss), start, start + len, stream);
  }

  // ------------------------------------------------------------ whole runs of the sender

  datatype Sender = Sender(conn: Conn, buf: seq<Byte>)

  datatype Action = Enqueue(data: seq<Byte>) | Ack(ack: nat) | Timeout | Advertise(window: nat)

  predicate Fits(l: Limits, c: Conn, n: nat) {
    c.wndMin + l.size - c.cur >= n
  }

  ghost predicate Ready(l: Limits, s: Sender) {
    Sane(l) && Sound(l, s.conn) && |s.buf| == l.size
  }

  /** One action: what becomes of the connection and what is handed to the segmenter. Data that does
      not fit is refused; acknowledgements count only while something is in flight. */
  ghost function Act(l: Limits, s: Sender, a: Action): (Sending, seq<Byte>)
    requires Ready(l, s) && (a.Ack? ==> s.conn.wndMin <= a.ack <= s.conn.cur)
    requires a.Enqueue? && Fits(l, s.conn, |a.data|) ==> s.conn.cur + |a.data| < TWO_32
  {
    var c := s.conn;
    match a
    case Enqueue(data) =>
      if Fits(l, c, |data|)
      then (UpdateSnd(l, c.(cur := c.cur + |data|), 0, true), EnqueueBytes(s.buf, c.cur, data))
      else (Sending(c, 0, 0), s.buf)
    case Ack(ack) =>
      if c.nxtSnd > c.wndMin
      then AckSound(l, c, ack); (UpdateSnd(l, AckWindow(l, c, ack), ack, false), s.buf)
      else (Sending(c, 0, 0), s.buf)
    case Timeout => (UpdateSnd(l, TimeoutWindow(l, c), 0, true), s.buf)
    case Advertise(w) => (Sending(c.(rcvAdv := w, maxAdv := Max(c.maxAdv, w)), 0, 0), s.buf)
  }

  /** An acknowledgement names bytes that were sent and not yet acknowledged, or the window's edge; nothing
      passes the end of the sequence space. */
  ghost predicate Lawful(l: Limits, s: Sender, high: nat, a: Action)
    requires Ready(l, s)
  {
    match a
    case Enqueue(data) => Fits(l, s.conn, |data|) ==> s.conn.cur + |data| < TWO_32
    case Ack(ack) => s.conn.wndMin <= ack <= high
    case _ => true
  }

  /** Beyond that, data continues the stream and does not wrap badly, and the third duplicate finds a full
      segment queued. */
  ghost predicate Fair(l: Limits, s: Sender, high: nat, a: Action, stream: nat -> Byte)
    requires Ready(l, s)
  {
    && Lawful(l, s, high, a)
    && match a
       case Enqueue(data) =>
         Fits(l, s.conn, |data|) ==>
           data == Stretch(stream, s.conn.cur, |data|) && WrapHarmless(l.size, s.conn.cur, data)
       case Ack(ack) => ack == s.conn.wndMin && s.conn.dupAck == 2 ==> s.conn.wndMin + l.smss <= s.conn.cur
       case _ => true
  }

  /** Pointers in order, bounds kept, and nothing beyond the queue was ever sent. */
  ghost predicate Poised(l: Limits, s: Sender, high: nat) {
    Ready(l, s) && s.conn.nxtSnd <= high <= s.conn.cur
  }

  /** The connection as an action hands it to update_snd_window. */
  ghost function Before(l: Limits, c: Conn, a: Action): Conn
    requires Sane(l) && Sound(l, c) && (a.Ack? ==> c.wndMin <= a.ack <= c.cur)
  {
    match a
    case Enqueue(data) => if Fits(l, c, |data|) then c.(cur := c.cur + |data|) else c
    case Ack(ack) => if c.nxtSnd > c.wndMin then AckWindow(l, c, ack) else c
    case Timeout => TimeoutWindow(l, c)
    case Advertise(w) => c.(rcvAdv := w, maxAdv := Max(c.maxAdv, w))
  }

  /** Data transmitted for the first time since then ends inside the window in force. */
  ghost predicate InWindow(l: Limits, c: Conn, a: Action, c': Conn)
    requires Sane(l) && Sound(l, c) && (a.Ack? ==> c.wndMin <= a.ack <= c.cur)
  {
    var d := Before(l, c, a);
    c'.nxtSnd > d.nxtSnd ==> c'.nxtSnd <= d.wndMin + d.wndSize
  }

  /** Order and bounds need nothing of the data: every lawful action keeps them, and new data stays inside
      the window. */
  lemma ActSound(l: Limits, s: Sender, high: nat, a: Action)
    requires Poised(l, s, high) && Lawful(l, s, high, a)
    ensures var (r, buf) := Act(l, s, a);
            && Poised(l, Sender(r.conn, buf), Max(high, r.conn.nxtSnd))
            && r.conn.wndMin >= s.conn.wndMin && r.conn.cur >= s.conn.cur
            && InWindow(l, s.conn, a, r.conn)
  {
    hide Slot, UpdateSnd, AckWindow, EnqueueBytes;
    var c := s.conn;
    match a {
      case Enqueue(data) =>
        if Fits(l, c, |data|) { UpdateSndSound(l, c.(cur := c.cur + |data|), 0, true); }
      case Ack(ack) =>
        if c.nxtSnd > c.wndMin {
          AckSound(l, c, ack);
          UpdateSndSound(l, AckWindow(l, c, ack), ack, false);
        }
      case Timeout =>
        TimeoutSound(l, c);
        UpdateSndSound(l, TimeoutWindow(l, c), 0, true);
      case Advertise(w) =>
    }
  }

  /** A run of lawful actions. */
  ghost predicate PointerRun(l: Limits, ss: seq<Sender>, highs: seq<nat>, acts: seq<Action>) {
    && |ss| == |highs| == |acts| + 1
    && forall i :: 0 <= i < |acts| ==> PointerStep(l, ss[i], highs[i], acts[i], ss[i + 1], highs[i + 1])
  }

  ghost predicate StaysInside(l: Limits, c: Conn, a: Action, c': Conn) {
    && Sane(l) && Sound(l, c) && (a.Ack? ==> c.wndMin <= a.ack <= c.cur)
    && InWindow(l, c, a, c')
  }

  ghost predicate PointerStep(l: Limits, s: Sender, high: nat, a: Action, s': Sender, high': nat) {
    && Poised(l, s, high) && Lawful(l, s, high, a)
    && var (r, buf) := Act(l, s, a);
       s' == Sender(r.conn, buf) && high' == Max(high, r.conn.nxtSnd)
  }

  /** Over every lawful run wnd_min, nxt_snd, cur and the ring's end stay in order, the congestion window
      stays between one segment and the ring's size, the left edge never moves back, and no action transmits
      new data beyond the window. */
  lemma {:induction false} PointersSafe(l: Limits, ss: seq<Sender>, highs: seq<nat>, acts: seq<Action>, n: nat)
    requires PointerRun(l, ss, highs, acts) && n <= |acts| && Poised(l, ss[0], highs[0])
    ensures Sound(l, ss[n].conn) && ss[n].conn.wndMin >= ss[0].conn.wndMin
    ensures Poised(l, ss[n], highs[n])
    ensures forall i :: 0 <= i < n ==> StaysInside(l, ss[i].conn, acts[i], ss[i + 1].conn)
    decreases n
  {
    hide Act, Sound, InWindow;
    if n > 0 {
      PointersSafe(l, ss, highs, acts, n - 1);
      assert PointerStep(l, ss[n - 1], highs[n - 1], acts[n - 1], ss[n], highs[n]);
      ActSound(l, ss[n - 1], highs[n - 1], acts[n - 1]);
    }
  }

  /** A run from a new connection with the source's constants: the peer advertises its window, one byte is
      written and sent, and the third duplicate acknowledgement makes the sender transmit a full segment
      although only that byte is queued. */
  lemma ShortRetransmission(buf: seq<Byte>, x: Byte) returns (ss: seq<Sender>, highs: seq<nat>)
    requires |buf| == GOS.size
    ensures PointerRun(GOS, ss, highs, [Advertise(2000), Enqueue([x]), Ack(100), Ack(100)])
    ensures ss[0] == Sender(Opened(GOS, 100, 2048), buf)
    ensures Poised(GOS, ss[4], highs[4]) && Lawful(GOS, ss[4], highs[4], Ack(100))
    ensures var r := Act(GOS, ss[4], Ack(100)).0;
            r.start == 100 && r.len == GOS.smss && r.conn.cur == 101 && !InQueue(r)
  {
    hide EnqueueBytes;
    var s0 := Sender(Opened(GOS, 100, 2048), buf);
    var s1 := Sender(s0.conn.(rcvAdv := 2000, maxAdv := 2000), buf);
    var s2 := Sender(Conn(100, 101, 101, 1454, 1454, 2048, 0, 0, 2000, 2000), EnqueueBytes(buf, 100, [x]));
    var s3, s4 := s2.(conn := s2.conn.(dupAck := 1)), s2.(conn := s2.conn.(dupAck := 2));
    ss, highs := [s0, s1, s2, s3, s4], [100, 100, 101, 101, 101];
    assert PointerStep(GOS, s0, 100, Advertise(2000), s1, 100);
    OneByteSent(s1, s2, x);
    DuplicateCounted(s2, s3);
    DuplicateCounted(s3, s4);
  }

  lemma OneByteSent(s: Sender, t: Sender, x: Byte)
    requires s.conn == Conn(100, 100, 100, 1454, 1454, 2048, 0, 0, 2000, 2000) && |s.buf| == GOS.size
    requires t == Sender(Conn(100, 101, 101, 1454, 1454, 2048, 0, 0, 2000, 2000), EnqueueBytes(s.buf, 100, [x]))
    ensures PointerStep(GOS, s, 100, Enqueue([x]), t, 101)
  {
    hide EnqueueBytes;
  }

  lemma DuplicateCounted(s: Sender, t: Sender)
    requires |s.buf| == GOS.size && s.conn.dupAck < 2
    requires s.conn == Conn(100, 101, 101, 1454, 1454, 2048, s.conn.dupAck, 0, 2000, 2000)
    requires t == s.(conn := s.conn.(dupAck := s.conn.dupAck + 1))
    ensures PointerStep(GOS, s, 101, Ack(100), t, 101)
  {
    hide EnqueueBytes;
  }

  ghost predicate Holding(l: Limits, s: Sender, high: nat, stream: nat -> Byte) {
    && Poised(l, s, high)
    && Queued(s.buf, s.conn.wndMin, s.conn.cur, stream)
  }

  /** A new connection holds an empty part of every stream. */
  lemma OpenedHolds(l: Limits, isn: nat, ssthresh: nat, buf: seq<Byte>, stream: nat -> Byte)
    requires Sane(l) && isn < TWO_32 && l.smss <= ssthresh < TWO_31 && |buf| == l.size
    ensures Holding(l, Sender(Opened(l, isn, ssthresh), buf), isn, stream)
  {
  }

  lemma ActKeeps(l: Limits, s: Sender, high: nat, a: Action, stream: nat -> Byte)
    requires Holding(l, s, high, stream) && Fair(l, s, high, a, stream)
    ensures var (r, buf) := Act(l, s, a);
            && Holding(l, Sender(r.conn, buf), Max(high, r.conn.nxtSnd), stream)
            && r.conn.wndMin >= s.conn.wndMin && r.conn.cur >= s.conn.cur
            && InQueue(r)
  {
    hide Slot, UpdateSnd, AckWindow, EnqueueBytes;
    var c := s.conn;
    match a {
      case Enqueue(data) =>
        if Fits(l, c, |data|) {
          EnqueueQueued(s.buf, c.wndMin, c.cur, data, stream);
          UpdateSndSound(l, c.(cur := c.cur + |data|), 0, true);
        }
      case Ack(ack) =>
        if c.nxtSnd > c.wndMin {
          AckSound(l, c, ack);
          UpdateSndSound(l, AckWindow(l, c, ack), ack, false);
        }
      case Timeout =>
        TimeoutSound(l, c);
        UpdateSndSound(l, TimeoutWindow(l, c), 0, true);
      case Advertise(w) =>
    }
  }

  /** A run of fair actions, with the segments each one puts on the wire. */
  ghost predicate SenderRun(l: Limits, ss: seq<Sender>, highs: seq<nat>, acts: seq<Action>, sent: seq<seq<Event>>, stream: nat -> Byte) {
    && Sane(l)
    && |ss| == |highs| == |acts| + 1 && |sent| == |acts|
    && forall i :: 0 <= i < |acts| ==> SenderStep(l, ss[i], highs[i], acts[i], sent[i], ss[i + 1], highs[i + 1], stream)
  }

  ghost predicate SenderStep(l: Limits, s: Sender, high: nat, a: Action, sent: seq<Event>, s': Sender, high': nat, stream: nat -> Byte)
    requires Sane(l)
  {
    && Ready(l, s)
    && Fair(l, s, high, a, stream)
    && (a.Ack? ==> a.ack <= s.conn.cur)
    && var (r, buf) := Act(l, s, a);
       && s' == Sender(r.conn, buf) && high' == Max(high, r.conn.nxtSnd)
       && |buf| == l.size && sent == Segments(buf, r.start, r.len, l.smss)
  }

  lemma StepCuts(l: Limits, s: Sender, high: nat, a: Action, sent: seq<Event>, s': Sender, high': nat, stream: nat -> Byte)
    requires Holding(l, s, high, stream) && SenderStep(l, s, high, a, sent, s', high', stream)
    ensures Holding(l, s', high', stream)
    ensures forall j :: 0 <= j < |sent| ==> CutFrom(stream, sent[j])
  {
    hide Slot, Act, Queued, CutFrom, Sound;
    ActKeeps(l, s, high, a, stream);
    var (r, buf) := Act(l, s, a);
    EmittedCut(buf, r.conn.wndMin, r.conn.cur, stream, r.start, r.len, l.smss);
  }

  /** Over every fair run the pointers stay in order, the congestion window stays between one segment
      and the ring's size, and every segment put on the wire, retransmissions included, is cut from
      the stream the application wrote. */
  lemma {:induction false} SenderSafe(l: Limits, ss: seq<Sender>, highs: seq<nat>, acts: seq<Action>,
                                      sent: seq<seq<Event>>, stream: nat -> Byte, n: nat)
    requires SenderRun(l, ss, highs, acts, sent, stream) && n <= |acts|
    requires Holding(l, ss[0], highs[0], stream)
    ensures Holding(l, ss[n], highs[n], stream) && Sound(l, ss[n].conn)
    ensures forall i, j :: 0 <= i < n && 0 <= j < |sent[i]| ==> CutFrom(stream, sent[i][j])
    decreases n
  {
    hide SenderStep, CutFrom, Queued;
    if n > 0 {
      SenderSafe(l, ss, highs, acts, sent, stream, n - 1);
      StepCuts(l, ss[n - 1], highs[n - 1], acts[n - 1], sent[n - 1], ss[n], highs[n], stream);
    }
  }

  /** Whatever the network does to the segments of a sender's run (loss, duplication, reordering), a
      receiver that never sees its ring fill in one scan hands its application a prefix of what the
      sending application wrote. */
  lemma EndToEnd(l: Limits, ss: seq<Sender>, highs: seq<nat>, acts: seq<Action>, sent: seq<seq<Event>>,
                 stream: nat -> Byte, q: Queue, es: seq<Event>)
    requires SenderRun(l, ss, highs, acts, sent, stream) && Holding(l, ss[0], highs[0], stream)
    requires Inv(q) && Agrees(q, stream) && NeverFills(q, es)
    requires forall k :: 0 <= k < |es| && es[k].Segment? ==> exists i :: 0 <= i < |sent| && es[k] in sent[i]
    ensures var out := Run(q, es).1;
            out == Stretch(stream, q.wndMin, |out|)
  {
    hide SenderRun, Holding, Inv, Agrees, NeverFills, Run;
    RunLength(l, ss, highs, acts, sent, stream);
    SenderSafe(l, ss, highs, acts, sent, stream, |acts|);
    forall k | 0 <= k < |es|
      ensures CutFrom(stream, es[k])
    {
      if es[k].Segment? {
        var i :| 0 <= i < |sent| && es[k] in sent[i];
        var j :| 0 <= j < |sent[i]| && sent[i][j] == es[k];
        assert CutFrom(stream, sent[i][j]);
      }
    }
    Reassembly(q, stream, es);
  }

  /** From new connections on both sides: the reader gets the beginning of what was written. */
  lemma FromConnect(l: Limits, isn: nat, ssthresh: nat, ss: seq<Sender>, highs: seq<nat>, acts: seq<Action>,
                    sent: seq<seq<Event>>, stream: nat -> Byte, size: nat, es: seq<Event>)
    requires SenderRun(l, ss, highs, acts, sent, stream) && isn < TWO_32 && l.smss <= ssthresh < TWO_31
    requires ss[0].conn == Opened(l, isn, ssthresh) && |ss[0].buf| == l.size && highs[0] == isn
    requires size > 0 && NeverFills(Empty(isn, size), es)
    requires forall k :: 0 <= k < |es| && es[k].Segment? ==> exists i :: 0 <= i < |sent| && es[k] in sent[i]
    ensures var out := Run(Empty(isn, size), es).1;
            out == Stretch(stream, isn, |out|)
  {
    hide Holding, Inv, Agrees, NeverFills, Run, SenderStep;
    OpenedHolds(l, isn, ssthresh, ss[0].buf, stream);
    EmptySound(isn, size, stream);
    EndToEnd(l, ss, highs, acts, sent, stream, Empty(isn, size), es);
  }

  lemma RunLength(l: Limits, ss: seq<Sender>, highs: seq<nat>, acts: seq<Action>, sent: seq<seq<Event>>, stream: nat -> Byte)
    requires SenderRun(l, ss, highs, acts, sent, stream)
    ensures |sent| == |acts|
  {
  }

  // ------------------------------------------------------------ the code

  class SendQueue {
    const limits: Limits
    const buf: array<Byte>
    var wndMin: nat
    var nxtSnd: nat
    var cur: nat
    var wndSize: nat
    var cwnd: nat
    var ssthresh: nat
    var duplicatedAck: nat
    var flightSize: nat
    var rcvAdv: nat
    var maxAdv: nat

    ghost function State(): Conn
      reads this
    {
      Conn(wndMin, nxtSnd, cur, wndSize, cwnd, ssthresh, duplicatedAck, flightSize, rcvAdv, maxAdv)
    }

    ghost predicate Valid()
      reads this
    {
      Sane(limits) && Sound(limits, State()) && buf.Length == limits.size
    }

    constructor (limits: Limits, isn: nat, ssthresh: nat)
      requires Sane(limits) && isn < TWO_32 && limits.smss <= ssthresh < TWO_31
      ensures Valid() && this.limits == limits && fresh(buf)
      ensures State() == Opened(limits, isn, ssthresh)
      ensures forall stream: nat -> Byte :: Holding(limits, Sender(State(), buf[..]), isn, stream)
    {
      this.limits := limits;
      buf := new Byte[limits.size](_ => 0);
      wndMin, nxtSnd, cur := isn, isn, isn;
      wndSize, cwnd, this.ssthresh := limits.smss, limits.smss, ssthresh;
      duplicatedAck, flightSize, rcvAdv, maxAdv := 0, 0, 0, 0;
    }

    /** One packet, or two when the bytes pass the ring's end. */
    method SendBytes(p: nat, k: nat) returns (sent: seq<Event>)
      requires 0 < k <= buf.Length
      ensures sent == Cut(buf[..], p, k)
    {
      var off := Slot(p, buf.Length);
      if off + k <= buf.Length {
        sent := [Segment(p, buf[off..off + k])];
      } else {
        var k1 := buf.Length - off;
        sent := [Segment(p, buf[off..]), Segment(p + k1, buf[..k - k1])];
      }
    }

    /** flush_data. */
    method FlushData(dataToSend: nat, indx: nat) returns (sent: seq<Event>)
      requires 0 < limits.smss <= buf.Length
      ensures sent == Segments(buf[..], indx, dataToSend, limits.smss)
    {
      hide Cut, Slot;
      sent := [];
      var left: nat, seqNum: nat := dataToSend, indx;
      while left >= limits.smss
        invariant sent + Segments(buf[..], seqNum, left, limits.smss) == Segments(buf[..], indx, dataToSend, limits.smss)
      {
        var es := SendBytes(seqNum, limits.smss);
        sent := sent + es;
        seqNum := seqNum + limits.smss;
        left := left - limits.smss;
      }
      if left > 0 {
        var es := SendBytes(seqNum, left);
        sent := sent + es;
      }
    }

    /** update_snd_window. */
    method UpdateSndWindow(ackSeqNum: nat, skipAck: bool) returns (sent: seq<Event>)
      requires Valid() && (skipAck || ackSeqNum <= nxtSnd)
      modifies this`wndMin, this`nxtSnd, this`flightSize
      ensures var r := UpdateSnd(limits, old(State()), ackSeqNum, skipAck);
              State() == r.conn && sent == Segments(buf[..], r.start, r.len, limits.smss)
    {
      hide Segments, Slot, UpdateSnd;
      var dataToSend, indx := MoveWindow(ackSeqNum, skipAck);
      sent := FlushData(dataToSend, indx);
    }

    /** What is to be sent, and from where. */
    method MoveWindow(ackSeqNum: nat, skipAck: bool) returns (dataToSend: nat, indx: nat)
      requires Valid() && (skipAck || ackSeqNum <= nxtSnd)
      modifies this`wndMin, this`nxtSnd, this`flightSize
      ensures Sending(State(), indx, dataToSend) == UpdateSnd(limits, old(State()), ackSeqNum, skipAck)
    {
      if duplicatedAck > 2 && ackSeqNum == 0 {
        return 0, 0;
      }
      if duplicatedAck == 0 {
        dataToSend, indx := MoveNew(ackSeqNum, skipAck);
      } else if duplicatedAck == 3 {
        dataToSend, indx := limits.smss, ackSeqNum;
      } else {
        dataToSend, indx := MoveOneMore(duplicatedAck <= 2);
      }
    }

    method MoveNew(ackSeqNum: nat, skipAck: bool) returns (dataToSend: nat, indx: nat)
      requires Valid() && (skipAck || ackSeqNum <= nxtSnd)
      modifies this`wndMin, this`nxtSnd, this`flightSize
      ensures Sending(State(), indx, dataToSend) == SendNew(limits, old(State()), ackSeqNum, skipAck)
    {
      dataToSend := 0;
      var wndMax := wndMin + wndSize;
      var wndNxt := nxtSnd;
      if !skipAck {
        wndMin := ackSeqNum;
      }
      indx := wndNxt;
      if cur <= wndMax || wndNxt <= wndMax {
        var right := if cur <= wndMax then cur else wndMax;
        var w := right - wndNxt;
        if wndNxt - wndMin == 0 {
          dataToSend := w;
        } else if w >= limits.smss {
          dataToSend := w - w % limits.smss;
        } else if w >= maxAdv / 2 {
          dataToSend := w;
        }
        nxtSnd := nxtSnd + dataToSend;
        flightSize := wndNxt - wndMin;
      }
    }

    method MoveOneMore(limited: bool) returns (dataToSend: nat, indx: nat)
      requires Valid()
      modifies this`nxtSnd, this`flightSize
      ensures Sending(State(), indx, dataToSend) == SendOneMore(limits, old(State()), limited)
    {
      var wndMax := wndMin + wndSize;
      var w := if wndMax > nxtSnd then wndMax - nxtSnd else 0;
      dataToSend, indx := 0, if limited then 3 else nxtSnd;
      if w >= limits.smss && (!limited || nxtSnd - wndMin + limits.smss <= cwnd + 2 * limits.smss)
         && cur >= nxtSnd + limits.smss {
        indx := nxtSnd;
        flightSize := (nxtSnd - cur) % TWO_32;
        nxtSnd := nxtSnd + limits.smss;
        dataToSend := limits.smss;
      }
    }

    /** rcv_ack, called while something is in flight. */
    method RcvAck(ackSeqNum: nat) returns (sent: seq<Event>)
      requires Valid() && wndMin <= ackSeqNum <= cur
      modifies this
      ensures Valid()
      ensures var r := UpdateSnd(limits, AckWindow(limits, old(State()), ackSeqNum), ackSeqNum, false);
              State() == r.conn && sent == Segments(buf[..], r.start, r.len, limits.smss)
      ensures wndMin >= old(wndMin) && (old(wndMin) < ackSeqNum ==> wndMin == ackSeqNum)
    {
      hide Segments, UpdateSnd, Slot, AckWindow;
      AckSound(limits, State(), ackSeqNum);
      OpenWindow(ackSeqNum);
      UpdateSndSound(limits, State(), ackSeqNum, false);
      AckEdge(limits, State(), ackSeqNum);
      sent := UpdateSndWindow(ackSeqNum, false);
    }

    /** Slow start, congestion avoidance and the duplicate counter. */
    method OpenWindow(ackSeqNum: nat)
      requires Valid() && wndMin <= ackSeqNum <= cur
      modifies this
      ensures State() == AckWindow(limits, old(State()), ackSeqNum)
    {
      hide Growth;
      if wndMin < ackSeqNum {
        if nxtSnd < ackSeqNum {
          nxtSnd := ackSeqNum;
        }
        if duplicatedAck > 0 {
          duplicatedAck := 0;
          cwnd := ssthresh;
        }
        if cwnd <= ssthresh {
          cwnd := cwnd + limits.smss;
        } else {
          cwnd := cwnd + Growth(limits.smss, cwnd);
        }
      } else {
        duplicatedAck := duplicatedAck + 1;
        if duplicatedAck == 3 {
          ssthresh := Max(flightSize / 2, 2 * limits.smss);
          cwnd := ssthresh + 3 * limits.smss;
        }
      }
      if cwnd > limits.size {
        cwnd := limits.size;
      }
      wndSize := Min(cwnd, rcvAdv);
    }

    /** rtrsn_timer_handler in the data phase. */
    method OnTimeout() returns (sent: seq<Event>)
      requires Valid()
      modifies this
      ensures Valid() && cwnd == limits.smss
      ensures var r := UpdateSnd(limits, TimeoutWindow(limits, old(State())), 0, true);
              State() == r.conn && sent == Segments(buf[..], r.start, r.len, limits.smss)
      ensures wndMin == old(wndMin) && nxtSnd == wndMin + Resent(limits, State())
      ensures Consecutive(sent, wndMin, nxtSnd) && Payload(sent) == Get(buf[..], wndMin, nxtSnd - wndMin)
    {
      hide Segments, UpdateSnd, Slot;
      ghost var c := State();
      TimeoutSends(limits, c);
      UpdateKeepsPeer(limits, TimeoutWindow(limits, c), 0, true);
      SegmentsWhole(buf[..], c.wndMin, Resent(limits, c), limits.smss);
      TimeoutSound(limits, c);
      cwnd := limits.smss;
      nxtSnd := wndMin;
      wndSize := Min(cwnd, rcvAdv);
      duplicatedAck := 0;
      assert State() == TimeoutWindow(limits, c);
      UpdateSndSound(limits, State(), 0, true);
      UpdateKeepsCwnd(limits, State(), 0, true);
      sent := UpdateSndWindow(0, true);
    }

    /** enqueue_packet_tcp; false when the data does not fit. */
    method Enqueue(data: seq<Byte>) returns (ok: bool, sent: seq<Event>)
      requires Valid() && cur + |data| < TWO_32
      modifies this, buf
      ensures Valid()
      ensures ok <==> old(cur) + |data| <= old(wndMin) + limits.size
      ensures !ok ==> State() == old(State()) && buf[..] == old(buf[..]) && sent == []
      ensures ok ==> buf[..] == EnqueueBytes(old(buf[..]), old(cur), data)
      ensures ok ==> var r := UpdateSnd(limits, old(State()).(cur := old(cur) + |data|), 0, true);
                     State() == r.conn && sent == Segments(buf[..], r.start, r.len, limits.smss)
    {
      hide Segments, UpdateSnd, Slot, EnqueueBytes;
      ok, sent := wndMin + limits.size - cur >= |data|, [];
      if !ok {
        return;
      }
      CopyRing(data);
      cur := cur + |data|;
      UpdateSndSound(limits, State(), 0, true);
      sent := UpdateSndWindow(0, true);
    }

    method CopyRing(data: seq<Byte>)
      requires 0 < buf.Length && |data| <= buf.Length
      modifies buf
      ensures buf[..] == EnqueueBytes(old(buf[..]), cur, data)
    {
      hide Slot;
      var off := Slot(cur, buf.Length);
      if buf.Length - off > |data| {
        CopyIn(buf, off, data);
      } else {
        var k := buf.Length - off;
        CopyEnds(off, data[..k], data[..|data| - k]);
      }
    }

    /** One piece to the end of the ring, the other to its start. */
    method CopyEnds(off: nat, last: seq<Byte>, first: seq<Byte>)
      requires off + |last| == buf.Length && |first| <= buf.Length
      modifies buf
      ensures buf[..] == first + (old(buf[..])[..off] + last)[|first|..]
    {
      CopyIn(buf, off, last);
      EndsThere(old(buf[..]), off, last);
      ghost var c: seq<Byte> := buf[..];
      CopyIn(buf, 0, first);
      StartsThere(c, first);
    }
  }

  lemma AckEdge(l: Limits, c: Conn, ack: nat)
    requires Sane(l) && Sound(l, c) && c.wndMin <= ack <= c.nxtSnd && (c.dupAck == 0 || ack == c.wndMin)
    ensures UpdateSnd(l, c, ack, false).conn.wndMin == ack
  {
  }

  lemma UpdateKeepsPeer(l: Limits, c: Conn, ack: nat, skipAck: bool)
    requires Sane(l) && Sound(l, c) && (skipAck || c.wndMin <= ack <= c.nxtSnd)
    ensures var d := UpdateSnd(l, c, ack, skipAck).conn;
            && d.rcvAdv == c.rcvAdv && d.maxAdv == c.maxAdv && d.wndSize == c.wndSize
            && d.ssthresh == c.ssthresh && d.dupAck == c.dupAck
  {
  }

  lemma UpdateKeepsCwnd(l: Limits, c: Conn, ack: nat, skipAck: bool)
    requires Sane(l) && Sound(l, c) && (skipAck || c.wndMin <= ack <= c.nxtSnd)
    ensures UpdateSnd(l, c, ack, skipAck).conn.cwnd == c.cwnd
  {
  }
}
