/** Whole runs of the receive queue: the bytes read are a prefix of the stream the segments were cut from. */
module TcpReassembly {
  import opened Basics
  import opened Rings
  import opened TcpReceive

  function Run(q: Queue, es: seq<Event>): (r: (Queue, seq<Byte>))
    requires Shaped(q)
    ensures Shaped(r.0)
    decreases |es|
  {
    if es == [] then (q, [])
    else
      var (q1, out) := Step(q, es[0]);
      var (q2, rest) := Run(q1, es[1..]);
      (q2, out + rest)
  }

  /** The peer cut its segments from one stream. */
  ghost predicate CutFrom(stream: nat -> Byte, e: Event) {
    e.Segment? ==> forall k :: 0 <= k < |e.data| ==> e.data[k] == stream(e.s + k)
  }

  /** No accepted segment of the run completes the ring in one scan. */
  ghost predicate NeverFills(q: Queue, es: seq<Event>)
    requires Shaped(q)
    decreases |es|
  {
    es == [] ||
    (&& (es[0].Segment? && Acceptable(q, es[0].s, |es[0].data|) ==> !FillsRing(q, es[0].s, |es[0].data|))
     && NeverFills(Step(q, es[0]).0, es[1..]))
  }

  /** Positions delivered by some segment of the run. */
  ghost predicate Arrived(es: seq<Event>, p: nat) {
    exists i :: 0 <= i < |es| && es[i].Segment? && es[i].s <= p < es[i].s + |es[i].data|
  }

  /** Every byte the queue claims to have is the stream's byte at that position. */
  ghost predicate Agrees(q: Queue, stream: nat -> Byte)
    requires Shaped(q)
  {
    forall p: nat :: Has(q, p) ==> q.buf[Slot(p, |q.buf|)] == stream(p)
  }

  ghost function Stretch(stream: nat -> Byte, a: nat, k: nat): (r: seq<Byte>)
    ensures |r| == k && forall i :: 0 <= i < k ==> r[i] == stream(a + i)
  {
    if k == 0 then [] else Stretch(stream, a, k - 1) + [stream(a + k - 1)]
  }

  lemma AcceptAgrees(q: Queue, stream: nat -> Byte, s: nat, data: seq<Byte>)
    requires Inv(q) && Acceptable(q, s, |data|) && !FillsRing(q, s, |data|)
    requires Agrees(q, stream) && CutFrom(stream, Segment(s, data))
    ensures Agrees(Accept(q, s, data), stream)
  {
    hide Slot, Inv, Accept, FillsRing;
    HasBounds(q);
    var r := Accept(q, s, data);
    forall p: nat | Has(r, p)
      ensures r.buf[Slot(p, |r.buf|)] == stream(p)
    {
      AcceptHas(q, s, data, p);
      PutAt(q.buf, s, data, p);
      if s <= p < s + |data| { assert data[p - s] == stream(s + (p - s)); }
    }
  }

  lemma ReadAgrees(q: Queue, stream: nat -> Byte, want: nat)
    requires Inv(q) && Agrees(q, stream)
    ensures Agrees(Dequeue(q, want).0, stream)
    ensures Dequeue(q, want).1 == Stretch(stream, q.wndMin, |Dequeue(q, want).1|)
  {
    hide Slot, Inv;
    HasBounds(q);
    ReadSound(q, want);
    forall i | 0 <= i < |Dequeue(q, want).1|
      ensures Dequeue(q, want).1[i] == stream(q.wndMin + i)
    {
      assert Has(q, q.wndMin + i);
    }
  }

  lemma StepSafe(q: Queue, stream: nat -> Byte, e: Event)
    requires Inv(q) && Agrees(q, stream) && CutFrom(stream, e)
    requires e.Segment? && Acceptable(q, e.s, |e.data|) ==> !FillsRing(q, e.s, |e.data|)
    ensures var (r, out) := Step(q, e);
            && Inv(r) && Agrees(r, stream)
            && r.wndMin == q.wndMin + |out| && out == Stretch(stream, q.wndMin, |out|)
            && |r.buf| == |q.buf|
  {
    hide Slot, Inv, FillsRing, Agrees;
    HasBounds(q);
    match e {
      case Segment(s, data) =>
        if Acceptable(q, s, |data|) {
          AcceptSound(q, s, data);
          AcceptAgrees(q, stream, s, data);
          AcceptHas(q, s, data, 0);
        }
      case Read(want) =>
        ReadSound(q, want);
        ReadAgrees(q, stream, want);
    }
  }

  lemma StretchJoin(stream: nat -> Byte, a: nat, j: nat, k: nat)
    ensures Stretch(stream, a, j) + Stretch(stream, a + j, k) == Stretch(stream, a, j + k)
  {
  }

  /** Reassembly is safe on every run of reordered, repeated and overlapping segments: what the
      application has read is the stream from where the run started, without gap or repetition, and
      the window accounting holds at the end. */
  lemma {:induction false} Reassembly(q: Queue, stream: nat -> Byte, es: seq<Event>)
    requires Inv(q) && Agrees(q, stream)
    requires forall i :: 0 <= i < |es| ==> CutFrom(stream, es[i])
    requires NeverFills(q, es)
    ensures var (r, out) := Run(q, es);
            && Inv(r) && Agrees(r, stream)
            && r.wndMin == q.wndMin + |out| && out == Stretch(stream, q.wndMin, |out|)
            && r.wndSize + (r.nxtRcv - r.wndMin) + |Ahead(r)| == |q.buf|
    decreases |es|
  {
    hide Slot, Inv, Agrees, FillsRing, Step;
    HasBounds(q);
    if es != [] {
      StepSafe(q, stream, es[0]);
      var (q1, out) := Step(q, es[0]);
      Reassembly(q1, stream, es[1..]);
      var (q2, rest) := Run(q1, es[1..]);
      StretchJoin(stream, q.wndMin, |out|, |rest|);
    } else {
      assert Stretch(stream, q.wndMin, 0) == [];
      WindowConserved(q);
    }
  }

  lemma {:induction false} RunPrefix(q: Queue, es: seq<Event>, i: nat)
    requires Shaped(q) && i < |es|
    ensures var (r, out) := Run(q, es[..i]);
            var (r', more) := Step(r, es[i]);
            Run(q, es[..i + 1]) == (r', out + more)
    decreases i
  {
    hide Step;
    var (q1, first) := Step(q, es[0]);
    if i == 0 {
      assert es[..1][1..] == [] && first + [] == [] + first;
    } else {
      RunPrefix(q1, es[1..], i - 1);
      assert es[..i][1..] == es[1..][..i - 1] && es[..i + 1][1..] == es[1..][..i];
      var (r, rest) := Run(q1, es[1..][..i - 1]);
      Reassociate(first, rest, Step(r, es[i]).1);
    }
  }

  lemma {:induction false} NeverFillsPrefix(q: Queue, es: seq<Event>, i: nat)
    requires Shaped(q) && NeverFills(q, es) && i <= |es|
    ensures NeverFills(q, es[..i])
    decreases i
  {
    hide Step, FillsRing;
    if i > 0 {
      NeverFillsPrefix(Step(q, es[0]).0, es[1..], i - 1);
      assert es[..i][1..] == es[1..][..i - 1];
    }
  }

  /** Every read of a run hands over what was asked for, or all that there is in order, and it is the next
      stretch of the stream. */
  lemma EveryRead(q: Queue, stream: nat -> Byte, es: seq<Event>, i: nat)
    requires Inv(q) && Agrees(q, stream) && NeverFills(q, es)
    requires forall k :: 0 <= k < |es| ==> CutFrom(stream, es[k])
    requires i < |es| && es[i].Read?
    ensures var (r, out) := Run(q, es[..i]);
            var (r', got) := Step(r, es[i]);
            && Run(q, es[..i + 1]) == (r', out + got)
            && Delivers(r, es[i].want, r', got) && got == Stretch(stream, r.wndMin, |got|)
  {
    hide Slot, Inv, Agrees, NeverFills, FillsRing, Run, CutFrom, Delivers;
    HasBounds(q);
    NeverFillsPrefix(q, es, i);
    Reassembly(q, stream, es[..i]);
    var r := Run(q, es[..i]).0;
    HasBounds(r);
    ReadDelivers(r, es[i].want);
    ReadAgrees(r, stream, es[i].want);
    RunPrefix(q, es, i);
  }

  /** The byte that fills a gap arrives, and yet nothing after the first byte can be read. */
  lemma GapStalls(stream: nat -> Byte)
    ensures var es := [Segment(0, [stream(0)]), Segment(2, [stream(2)]), Segment(1, [stream(1)])];
            && NeverFills(Empty(0, 4), es)
            && (forall i :: 0 <= i < 3 ==> Arrived(es, i))
            && Run(Empty(0, 4), es).0.nxtRcv == 1 && Has(Run(Empty(0, 4), es).0, 2)
  {
    hide Slot, Inv, Accept, FillsRing;
    var e0, e1, e2 := Segment(0, [stream(0)]), Segment(2, [stream(2)]), Segment(1, [stream(1)]);
    var es := [e0, e1, e2];
    var q := Empty(0, 4);
    EmptySound(0, 4, stream);
    var a, b, c := GapSteps(q, [stream(0)], [stream(2)], [stream(1)]);
    assert es[1..] == [e1, e2] && es[1..][1..] == [e2] && es[1..][1..][1..] == [];
    assert Run(c, []) == (c, []);
    assert Run(b, [e2]).0 == c;
    assert NeverFills(c, []) && NeverFills(b, [e2]) && NeverFills(a, [e1, e2]);
    assert Run(a, [e1, e2]).0 == c;
    assert es[0] == e0 && es[1] == e1 && es[2] == e2;
  }

  /** One byte into a ring of four whose last slot stays free. */
  lemma OneMore(q: Queue, s: nat, data: seq<Byte>) returns (r: Queue)
    requires Inv(q) && q.wndMin == 0 && |q.buf| == 4 && |data| == 1 && q.nxtRcv <= s < 3 && !Has(q, 3)
    ensures Acceptable(q, s, 1) && !FillsRing(q, s, 1) && r == Accept(q, s, data)
    ensures Inv(r) && r.wndMin == 0 && |r.buf| == 4
    ensures forall p: nat :: Has(r, p) <==> Has(q, p) || p == s
    ensures if Slow(q, s) && 0 < q.nxtRcv then r.nxtRcv == q.nxtRcv else !Has(r, r.nxtRcv)
  {
    hide Slot, Inv, Accept;
    HasBounds(q);
    assert !Marked(q, 3);
    assert !FillsRing(q, s, 1);
    hide FillsRing, Has;
    r := Accept(q, s, data);
    AcceptSound(q, s, data);
    AcceptAdvances(q, s, data);
    forall p: nat
      ensures Has(r, p) <==> Has(q, p) || p == s
    {
      AcceptHas(q, s, data, p);
    }
    AcceptHas(q, s, data, 0);
  }

  lemma AheadIsHole(q: Queue, p: nat)
    requires Inv(q) && Has(q, p) && p >= q.nxtRcv
    ensures q.hole
  {
    hide Slot;
  }

  lemma GapSteps(q: Queue, x: seq<Byte>, z: seq<Byte>, y: seq<Byte>) returns (a: Queue, b: Queue, c: Queue)
    requires q == Empty(0, 4) && Inv(q) && (forall p: nat :: !Has(q, p)) && |x| == |y| == |z| == 1
    ensures Shaped(a) && Acceptable(q, 0, 1) && !FillsRing(q, 0, 1) && a == Accept(q, 0, x)
    ensures Shaped(b) && Acceptable(a, 2, 1) && !FillsRing(a, 2, 1) && b == Accept(a, 2, z)
    ensures Shaped(c) && Acceptable(b, 1, 1) && !FillsRing(b, 1, 1) && c == Accept(b, 1, y)
    ensures c.nxtRcv == 1 && Has(c, 2)
  {
    hide Slot, Inv, Accept, FillsRing;
    HasBounds(q);
    a := OneMore(q, 0, x);
    HasBounds(a);
    assert !Has(a, 1) && a.nxtRcv <= 1;
    b := OneMore(a, 2, z);
    HasBounds(b);
    assert b.nxtRcv == 1 && Has(b, 2);
    AheadIsHole(b, 2);
    c := OneMore(b, 1, y);
  }

  lemma StepHas(q: Queue, e: Event, p: nat)
    requires Inv(q)
    requires e.Segment? && Acceptable(q, e.s, |e.data|) ==> !FillsRing(q, e.s, |e.data|)
    ensures var r := Step(q, e).0;
            && Inv(r) && q.wndMin <= r.wndMin <= r.nxtRcv
            && (Has(r, p) ==> Has(q, p) || Arrived([e], p))
            && (Has(q, p) && p < r.wndMin ==> q.wndMin <= p)
            && (q.wndMin <= p < r.wndMin ==> Has(q, p))
  {
    hide Slot, Inv, FillsRing, Accept;
    HasBounds(q);
    match e {
      case Segment(s, data) =>
        if Acceptable(q, s, |data|) {
          AcceptSound(q, s, data);
          AcceptHas(q, s, data, p);
          HasBounds(Accept(q, s, data));
          if s <= p < s + |data| { assert [e][0] == e; }
        }
      case Read(want) =>
        ReadSound(q, want);
        HasBounds(Dequeue(q, want).0);
    }
  }

  /** nxtRcv never passes a byte that has not arrived: every position below it was there at the start
      or was carried by some segment of the run. */
  lemma {:induction false} NothingInvented(q: Queue, es: seq<Event>, p: nat)
    requires Inv(q) && NeverFills(q, es)
    ensures var r := Run(q, es).0;
            Inv(r) && (q.wndMin <= p < r.nxtRcv ==> Has(q, p) || Arrived(es, p))
    decreases |es|
  {
    hide Slot, Inv, FillsRing, Accept;
    HasBounds(q);
    if es != [] {
      StepHas(q, es[0], p);
      var q1 := Step(q, es[0]).0;
      NothingInvented(q1, es[1..], p);
      if Arrived([es[0]], p) { assert Arrived(es, p); }
      if Arrived(es[1..], p) {
        var i :| 0 <= i < |es[1..]| && es[1..][i].Segment? && es[1..][i].s <= p < es[1..][i].s + |es[1..][i].data|;
        assert es[i + 1] == es[1..][i];
      }
    }
  }

  lemma EmptySound(isn: nat, size: nat, stream: nat -> Byte)
    requires size > 0
    ensures Inv(Empty(isn, size)) && Agrees(Empty(isn, size), stream)
    ensures forall p: nat :: !Has(Empty(isn, size), p)
  {
    hide Slot;
    assert Ahead(Empty(isn, size)) == {};
  }
}
