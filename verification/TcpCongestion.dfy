/** What the send side owes the network and the peer: which bytes go out after losses, how much of the window
    is used, and how the congestion window moves (RFC 5681, sections 3.1 and 3.2). */
module TcpCongestion {
  import opened Basics
  import opened Bits
  import opened Rings
  import opened TcpReassembly
  import opened TcpReceive
  import opened TcpSend

  // ------------------------------------------------------------ the congestion window

  /** A new acknowledgement: slow start adds a segment, congestion avoidance the share of one that a window of
      acknowledgements makes up, and the end of a recovery starts from the threshold. */
  lemma AckGrows(l: Limits, c: Conn, ack: nat)
    requires Sane(l) && Bounded(l, c) && c.wndMin < ack
    ensures var d := AckWindow(l, c, ack);
            && d.ssthresh == c.ssthresh && d.dupAck == 0
            && (c.dupAck > 0 ==> d.cwnd == Min(l.size, c.ssthresh + l.smss))
            && (c.dupAck == 0 && c.cwnd <= c.ssthresh ==> d.cwnd == Min(l.size, c.cwnd + l.smss))
            && (c.dupAck == 0 && c.cwnd > c.ssthresh ==>
                  exists g: nat :: IsShare(g, l.smss, c.cwnd) && d.cwnd == Min(l.size, c.cwnd + g))
  {
    hide Growth;
    if c.dupAck == 0 && c.cwnd > c.ssthresh {
      GrowthIsShare(l.smss, c.cwnd);
      assert IsShare(Growth(l.smss, c.cwnd), l.smss, c.cwnd);
    }
  }

  /** The largest g with g windows inside a squared segment. */
  ghost predicate IsShare(g: nat, smss: nat, cwnd: nat) {
    g * cwnd <= smss * smss < g * cwnd + cwnd
  }

  lemma GrowthIsShare(smss: nat, cwnd: nat)
    requires cwnd > 0
    ensures Growth(smss, cwnd) >= 0 && IsShare(Growth(smss, cwnd), smss, cwnd)
  {
    DivBounds(smss * smss, cwnd);
  }

  lemma DivBounds(a: nat, b: nat)
    requires b > 0
    ensures a / b >= 0 && (a / b) * b <= a < (a / b) * b + b
  {
    assert a == (a / b) * b + a % b;
  }

  /** A duplicate leaves the congestion window alone, except that the third one halves the recorded flight
      size into the threshold and adds the three segments that have left the network. */
  lemma DuplicateCuts(l: Limits, c: Conn)
    requires Sane(l) && Bounded(l, c)
    ensures var d := AckWindow(l, c, c.wndMin);
            && d.dupAck == c.dupAck + 1
            && (c.dupAck != 2 ==> d.cwnd == c.cwnd && d.ssthresh == c.ssthresh)
            && (c.dupAck == 2 ==> d.ssthresh == Max(c.flight / 2, 2 * l.smss) && d.cwnd == Min(l.size, d.ssthresh + 3 * l.smss))
  {
  }

  /** A segment sent on a duplicate records the flight size as the difference the wrong way around, close to
      2^32: with the kernel's constants the third duplicate then opens the window to the whole ring, where it
      was to be halved. Without such a segment the flight size is below the ring's size. */
  lemma LimitedTransmitInflates(c: Conn, d: Conn)
    requires Sound(GOS, c) && SendOneMore(GOS, c, true).len > 0
    requires d == SendOneMore(GOS, c, true).conn.(dupAck := 2)
    ensures d.flight == TWO_32 - (c.cur - c.nxtSnd)
    ensures AckWindow(GOS, d, d.wndMin).cwnd == GOS.size
  {
  }

  lemma NewDataFlight(l: Limits, c: Conn, ack: nat, skipAck: bool)
    requires Sane(l) && Sound(l, c) && (skipAck || c.wndMin <= ack <= c.nxtSnd)
    ensures var d := SendNew(l, c, ack, skipAck).conn;
            d.flight == c.flight || d.flight == c.nxtSnd - d.wndMin <= l.size
  {
  }

  ghost predicate NewAck(c: Conn, a: Action) {
    a.Ack? && a.ack > c.wndMin && c.nxtSnd > c.wndMin
  }

  /** A run in which every action is an acknowledgement of new data. */
  ghost predicate AckRun(l: Limits, ss: seq<Sender>, highs: seq<nat>, acts: seq<Action>, n: nat) {
    && PointerRun(l, ss, highs, acts) && n <= |acts| < |ss| == |highs| && Poised(l, ss[0], highs[0])
    && forall i :: 0 <= i < n ==> NewAck(ss[i].conn, acts[i])
  }

  lemma AckStep(l: Limits, ss: seq<Sender>, highs: seq<nat>, acts: seq<Action>, n: nat)
    requires AckRun(l, ss, highs, acts, n) && n > 0
    ensures var c, d := ss[n - 1].conn, ss[n].conn;
            && Sane(l) && Bounded(l, c) && acts[n - 1].Ack? && acts[n - 1].ack > c.wndMin
            && var w := AckWindow(l, c, acts[n - 1].ack);
               d.cwnd == w.cwnd && d.ssthresh == w.ssthresh && d.dupAck == w.dupAck
  {
    hide UpdateSnd, AckWindow, Slot;
    PointersSafe(l, ss, highs, acts, n - 1);
    assert PointerStep(l, ss[n - 1], highs[n - 1], acts[n - 1], ss[n], highs[n]);
    assert NewAck(ss[n - 1].conn, acts[n - 1]);
    var c, ack := ss[n - 1].conn, acts[n - 1].ack;
    AckSound(l, c, ack);
    UpdateKeepsCwnd(l, AckWindow(l, c, ack), ack, false);
    UpdateKeepsPeer(l, AckWindow(l, c, ack), ack, false);
  }

  /** In slow start every acknowledgement opens the window by one segment. */
  lemma {:induction false} SlowStart(l: Limits, ss: seq<Sender>, highs: seq<nat>, acts: seq<Action>, n: nat)
    requires AckRun(l, ss, highs, acts, n) && ss[0].conn.dupAck == 0
    requires n > 0 ==> ss[0].conn.cwnd + (n - 1) * l.smss <= ss[0].conn.ssthresh
    ensures ss[n].conn.cwnd == Min(l.size, ss[0].conn.cwnd + n * l.smss)
    ensures ss[n].conn.ssthresh == ss[0].conn.ssthresh && ss[n].conn.dupAck == 0
    decreases n
  {
    hide AckWindow, PointerRun, Poised;
    if n == 0 {
      StartBounded(l, ss, highs, acts);
    } else {
      assert (n - 1) * l.smss == (if n > 1 then (n - 2) * l.smss + l.smss else 0) && n * l.smss == (n - 1) * l.smss + l.smss;
      SlowStart(l, ss, highs, acts, n - 1);
      AckStep(l, ss, highs, acts, n);
      AckGrows(l, ss[n - 1].conn, acts[n - 1].ack);
    }
  }

  lemma StartBounded(l: Limits, ss: seq<Sender>, highs: seq<nat>, acts: seq<Action>)
    requires AckRun(l, ss, highs, acts, 0)
    ensures Sane(l) && Bounded(l, ss[0].conn)
  {
  }

  /** In congestion avoidance a window's worth of acknowledgements opens the window by one segment at most. */
  lemma Avoidance(l: Limits, ss: seq<Sender>, highs: seq<nat>, acts: seq<Action>, n: nat)
    requires AckRun(l, ss, highs, acts, n) && ss[0].conn.dupAck == 0
    requires ss[0].conn.cwnd > ss[0].conn.ssthresh && n * l.smss <= ss[0].conn.cwnd
    ensures ss[0].conn.cwnd <= ss[n].conn.cwnd <= ss[0].conn.cwnd + l.smss
  {
    hide PointerRun, Poised, NewAck;
    AvoidanceSum(l, ss, highs, acts, n);
    WithinOne(ss[n].conn.cwnd - ss[0].conn.cwnd, ss[0].conn.cwnd, n, l.smss);
  }

  lemma WithinOne(x: nat, w: nat, n: nat, s: nat)
    requires w > 0 && x * w <= n * (s * s) && n * s <= w
    ensures x <= s
  {
    assert n * (s * s) == (n * s) * s;
    MulMono(n * s, w, s);
    assert w * x == x * w && w * s == s * w;
    if x > s { MulGrows(w, s, x); }
  }

  lemma MulMono(a: nat, b: nat, c: nat)
    requires a <= b
    ensures a * c <= b * c
  {
    assert b * c == a * c + (b - a) * c;
  }

  lemma {:induction false} AvoidanceSum(l: Limits, ss: seq<Sender>, highs: seq<nat>, acts: seq<Action>, n: nat)
    requires AckRun(l, ss, highs, acts, n) && ss[0].conn.dupAck == 0 && ss[0].conn.cwnd > ss[0].conn.ssthresh
    ensures ss[n].conn.cwnd >= ss[0].conn.cwnd > 0 && ss[n].conn.dupAck == 0
    ensures ss[n].conn.ssthresh == ss[0].conn.ssthresh
    ensures (ss[n].conn.cwnd - ss[0].conn.cwnd) * ss[0].conn.cwnd <= n * (l.smss * l.smss)
    decreases n
  {
    hide AckWindow, PointerRun, Poised, IsShare;
    if n == 0 {
      StartBounded(l, ss, highs, acts);
    } else {
      AvoidanceSum(l, ss, highs, acts, n - 1);
      AckStep(l, ss, highs, acts, n);
      var c, d := ss[n - 1].conn, ss[n].conn;
      AckGrows(l, c, acts[n - 1].ack);
      var g: nat :| IsShare(g, l.smss, c.cwnd) && d.cwnd == Min(l.size, c.cwnd + g);
      ShareSum(ss[0].conn.cwnd, c.cwnd, d.cwnd, g, l.smss, n);
    }
  }

  lemma ShareSum(w: nat, c: nat, d: nat, g: nat, s: nat, n: nat)
    requires 0 < w <= c <= d <= c + g && IsShare(g, s, c) && n > 0 && (c - w) * w <= (n - 1) * (s * s)
    ensures (d - w) * w <= n * (s * s)
  {
    hide IsShare;
    MulMono(d - w, (c - w) + g, w);
    Spread(c - w, g, w);
    ShareShrinks(w, c, g, s);
    Spread(n - 1, 1, s * s);
  }

  lemma ShareShrinks(w: nat, c: nat, g: nat, s: nat)
    requires w <= c && IsShare(g, s, c)
    ensures g * w <= s * s
  {
    MulMono(w, c, g);
    assert w * g == g * w && c * g == g * c;
  }

  lemma Spread(a: nat, b: nat, c: nat)
    ensures (a + b) * c == a * c + b * c
  {
  }

  // ------------------------------------------------------------ how much is sent

  /** Bytes of the queue that the window still lets out. */
  function Usable(c: Conn): nat {
    var right := Min(c.cur, c.wndMin + c.wndSize);
    if right > c.nxtSnd then right - c.nxtSnd else 0
  }

  /** New data: less than a segment is held back, whole segments go out otherwise, nothing is held back when
      all that was sent is acknowledged, and a rest of half the peer's largest window goes out too. */
  lemma SendNewFills(l: Limits, c: Conn, ack: nat, skipAck: bool)
    requires Sane(l) && Sound(l, c) && (skipAck || c.wndMin <= ack <= c.nxtSnd)
    ensures var r := SendNew(l, c, ack, skipAck);
            && r.len <= Usable(c) < r.len + l.smss
            && (c.nxtSnd == r.conn.wndMin ==> r.len == Usable(c))
            && (r.len < Usable(c) ==> r.len % l.smss == 0 && (r.len == 0 ==> Usable(c) < c.maxAdv / 2))
  {
    var w := Usable(c);
    var len := SendNew(l, c, ack, skipAck).len;
    WholeSegments(w, l.smss);
    assert len == w || (w >= l.smss && len == w - w % l.smss) || (len == 0 && w < l.smss);
  }

  lemma WholeSegments(w: nat, smss: nat)
    requires smss > 0
    ensures 0 <= w % smss < smss && (w - w % smss) % smss == 0 && (w >= smss ==> w - w % smss > 0)
  {
    var k, r := w / smss, w % smss;
    assert w == smss * k + r;
    MulMod(smss, k);
    assert w - r == smss * k;
  }

  /** The action reaches update_snd_window. */
  ghost predicate Updates(l: Limits, c: Conn, a: Action) {
    match a
    case Enqueue(data) => Fits(l, c, |data|)
    case Ack(_) => c.nxtSnd > c.wndMin
    case Timeout => true
    case Advertise(_) => false
  }

  /** Over a run, whatever brings the sender to update its window makes it use all of it but less than a
      segment, unless duplicates are being counted. */
  lemma EveryUpdateFills(l: Limits, ss: seq<Sender>, highs: seq<nat>, acts: seq<Action>, i: nat)
    requires PointerRun(l, ss, highs, acts) && i < |acts| && Poised(l, ss[0], highs[0])
    requires Updates(l, ss[i].conn, acts[i])
    ensures StaysInside(l, ss[i].conn, acts[i], ss[i + 1].conn)
    ensures var d := Before(l, ss[i].conn, acts[i]);
            d.dupAck == 0 ==>
              && d.nxtSnd <= ss[i + 1].conn.nxtSnd
              && ss[i + 1].conn.nxtSnd - d.nxtSnd <= Usable(d) < ss[i + 1].conn.nxtSnd - d.nxtSnd + l.smss
              && (ss[i + 1].conn.wndMin == d.nxtSnd ==> ss[i + 1].conn.nxtSnd - d.nxtSnd == Usable(d))
  {
    hide Slot, AckWindow, TimeoutWindow, EnqueueBytes, SendNew, SendOneMore, Usable;
    PointersSafe(l, ss, highs, acts, i + 1);
    PointersSafe(l, ss, highs, acts, i);
    assert PointerStep(l, ss[i], highs[i], acts[i], ss[i + 1], highs[i + 1]);
    var c, a := ss[i].conn, acts[i];
    var d := Before(l, c, a);
    var ack := if a.Ack? then a.ack else 0;
    if a.Ack? { AckSound(l, c, ack); }
    if a.Timeout? { TimeoutSound(l, c); }
    if d.dupAck == 0 {
      SendNewFills(l, d, ack, !a.Ack?);
      SendNewSound(l, d, ack, !a.Ack?);
    }
  }

  /** On duplicates other than the third one whole segment goes out if window and queue have one; on the first
      two only while no more than two segments beyond the congestion window are under way. */
  lemma DuplicateSends(l: Limits, c: Conn, ack: nat)
    requires Sane(l) && Sound(l, c) && 0 < ack == c.wndMin && c.dupAck > 0 && c.dupAck != 3
    ensures var r := UpdateSnd(l, c, ack, false);
            var clear := Usable(c) >= l.smss && (c.dupAck <= 2 ==> c.nxtSnd + l.smss - c.wndMin <= c.cwnd + 2 * l.smss);
            && r.len == (if clear then l.smss else 0) && r.conn.nxtSnd == c.nxtSnd + r.len
            && (clear ==> r.start == c.nxtSnd)
  {
  }

  // ------------------------------------------------------------ the peer's window

  /** The window advertised last, and the largest one. */
  ghost function Advertised(acts: seq<Action>, c: Conn): (nat, nat)
    decreases |acts|
  {
    if acts == [] then (c.rcvAdv, c.maxAdv)
    else
      var (_, most) := Advertised(acts[..|acts| - 1], c);
      var a := acts[|acts| - 1];
      if a.Advertise? then (a.window, Max(most, a.window)) else Advertised(acts[..|acts| - 1], c)
  }

  /** Over a run the sender knows the window the peer advertised last and the largest one it advertised, and after
      every acknowledgement and timeout its own window is within both the peer's and the congestion window. */
  lemma {:induction false} PeerKnown(l: Limits, ss: seq<Sender>, highs: seq<nat>, acts: seq<Action>, n: nat)
    requires PointerRun(l, ss, highs, acts) && n <= |acts| && Poised(l, ss[0], highs[0])
    ensures (ss[n].conn.rcvAdv, ss[n].conn.maxAdv) == Advertised(acts[..n], ss[0].conn)
    ensures n > 0 && ss[n - 1].conn.nxtSnd > ss[n - 1].conn.wndMin && (acts[n - 1].Ack? || acts[n - 1].Timeout?) ==>
              ss[n].conn.wndSize == Min(ss[n].conn.cwnd, ss[n].conn.rcvAdv)
    decreases n
  {
    hide Slot, UpdateSnd, AckWindow, EnqueueBytes, Sound;
    if n > 0 {
      PeerKnown(l, ss, highs, acts, n - 1);
      PointersSafe(l, ss, highs, acts, n - 1);
      assert PointerStep(l, ss[n - 1], highs[n - 1], acts[n - 1], ss[n], highs[n]);
      assert acts[..n][..n - 1] == acts[..n - 1];
      PeerStep(l, ss[n - 1], highs[n - 1], acts[n - 1]);
    }
  }

  lemma PeerStep(l: Limits, s: Sender, high: nat, a: Action)
    requires Poised(l, s, high) && Lawful(l, s, high, a)
    ensures var c, d := s.conn, Act(l, s, a).0.conn;
            && (d.rcvAdv, d.maxAdv) == (if a.Advertise? then (a.window, Max(c.maxAdv, a.window)) else (c.rcvAdv, c.maxAdv))
            && (c.nxtSnd > c.wndMin && (a.Ack? || a.Timeout?) ==> d.wndSize == Min(d.cwnd, d.rcvAdv))
  {
    hide Slot, UpdateSnd, EnqueueBytes;
    var c := s.conn;
    match a {
      case Enqueue(data) =>
        if Fits(l, c, |data|) { UpdateKeepsPeer(l, c.(cur := c.cur + |data|), 0, true); }
      case Ack(ack) =>
        if c.nxtSnd > c.wndMin {
          AckSound(l, c, ack);
          UpdateKeepsPeer(l, AckWindow(l, c, ack), ack, false);
          UpdateKeepsCwnd(l, AckWindow(l, c, ack), ack, false);
        }
      case Timeout =>
        TimeoutSound(l, c);
        UpdateKeepsPeer(l, TimeoutWindow(l, c), 0, true);
        UpdateKeepsCwnd(l, TimeoutWindow(l, c), 0, true);
      case Advertise(w) =>
    }
  }

  // ------------------------------------------------------------ every loss of a run

  ghost predicate Sends(c: Conn, sent: seq<Event>, n: nat, stream: nat -> Byte) {
    Consecutive(sent, c.wndMin, c.wndMin + n) && Payload(sent) == Stretch(stream, c.wndMin, n)
  }

  lemma FromEdge(l: Limits, s: Sender, high: nat, r: Sending, sent: seq<Event>, n: nat, stream: nat -> Byte)
    requires Holding(l, s, high, stream) && s.conn.wndMin + n <= s.conn.cur
    requires r.start == s.conn.wndMin && r.len == n && sent == Segments(s.buf, r.start, r.len, l.smss)
    ensures Sends(s.conn, sent, n, stream)
  {
    hide Slot, Sound, Segments, Consecutive, Payload, AtMost;
    SegmentsWhole(s.buf, r.start, r.len, l.smss);
    assert Get(s.buf, r.start, n) == Stretch(stream, r.start, n);
  }

  /** Every timeout of a run sends the first unacknowledged bytes again, a segment at most; it sends something
      if and only if bytes are queued and the peer's window is open. */
  lemma EveryTimeout(l: Limits, ss: seq<Sender>, highs: seq<nat>, acts: seq<Action>, sent: seq<seq<Event>>,
                     stream: nat -> Byte, i: nat)
    requires SenderRun(l, ss, highs, acts, sent, stream) && Holding(l, ss[0], highs[0], stream)
    requires i < |acts| && acts[i].Timeout?
    ensures Holding(l, ss[i], highs[i], stream) && Sends(ss[i].conn, sent[i], Resent(l, ss[i].conn), stream)
    ensures sent[i] != [] <==> ss[i].conn.rcvAdv > 0 && ss[i].conn.wndMin < ss[i].conn.cur
  {
    hide Slot, UpdateSnd, Queued, Sound, Segments;
    SenderSafe(l, ss, highs, acts, sent, stream, i);
    assert SenderStep(l, ss[i], highs[i], acts[i], sent[i], ss[i + 1], highs[i + 1], stream);
    TimeoutSends(l, ss[i].conn);
    FromEdge(l, ss[i], highs[i], Act(l, ss[i], Timeout).0, sent[i], Resent(l, ss[i].conn), stream);
  }

  /** Every third duplicate of a run sends the first unacknowledged segment again. */
  lemma EveryThirdDuplicate(l: Limits, ss: seq<Sender>, highs: seq<nat>, acts: seq<Action>, sent: seq<seq<Event>>,
                            stream: nat -> Byte, i: nat)
    requires SenderRun(l, ss, highs, acts, sent, stream) && Holding(l, ss[0], highs[0], stream)
    requires i < |acts| && ss[i].conn.dupAck == 2 && ss[i].conn.nxtSnd > ss[i].conn.wndMin > 0
    requires acts[i] == Ack(ss[i].conn.wndMin)
    ensures Sends(ss[i].conn, sent[i], l.smss, stream)
  {
    hide Slot, Queued, Sound, Segments, SendNew, SendOneMore;
    SenderSafe(l, ss, highs, acts, sent, stream, i);
    assert SenderStep(l, ss[i], highs[i], acts[i], sent[i], ss[i + 1], highs[i + 1], stream);
    FromEdge(l, ss[i], highs[i], Act(l, ss[i], acts[i]).0, sent[i], l.smss, stream);
  }
}
