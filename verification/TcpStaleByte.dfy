/** A receive ring that fills in one scan, followed byte by byte. */
module TcpStaleByte {
  import opened Basics
  import opened Rings
  import opened TcpReassembly
  import opened TcpReceive

  function FourBytes(p: nat): Byte {
    if p == 0 then 0 else if p == 1 then 1 else if p == 2 then 2 else 3
  }

  /** A full ring does break reassembly: two bytes arrive in the wrong order and fill a ring of two,
      and after they are read a single byte ahead makes the queue deliver one that never arrived. */
  lemma FullRingDeliversStaleByte()
    ensures var stream := FourBytes;
            var q := Empty(0, 2);
            var es := [Segment(1, [1]), Segment(0, [0]), Read(2), Segment(3, [3]), Read(2)];
            && (forall i :: 0 <= i < |es| ==> CutFrom(stream, es[i]))
            && !Arrived(es, 2)
            && Run(q, es).1 == [0, 1, 0, 3]
            && Run(q, es).1 != Stretch(stream, 0, 4)
            && !NeverFills(q, es)
  {
    hide Step, FillsRing, Run;
    var stream := FourBytes;
    var q := Empty(0, 2);
    var es := [Segment(1, [1]), Segment(0, [0]), Read(2), Segment(3, [3]), Read(2)];
    StaleRun(q);
    var q1, q2 := Step(q, es[0]).0, Step(Step(q, es[0]).0, es[1]).0;
    var (q3, a) := Step(q2, es[2]);
    var q4 := Step(q3, es[3]).0;
    RunFive(q, es, q1, q2, q3, q4, a, Step(q4, es[4]).1);
    assert Stretch(stream, 0, 4)[2] == 2;
    assert es[1..][0] == es[1];
  }

  lemma RunFive(q: Queue, es: seq<Event>, q1: Queue, q2: Queue, q3: Queue, q4: Queue, a: seq<Byte>, b: seq<Byte>)
    requires |es| == 5 && Shaped(q) && Step(q, es[0]) == (q1, [])
    requires Shaped(q1) && Step(q1, es[1]) == (q2, [])
    requires Shaped(q2) && Step(q2, es[2]) == (q3, a)
    requires Shaped(q3) && Step(q3, es[3]) == (q4, [])
    requires Shaped(q4) && Step(q4, es[4]).1 == b
    ensures Run(q, es).1 == a + b
  {
    hide Step;
    var e1, e2, e3, e4 := es[1..], es[2..], es[3..], es[4..];
    assert e1[1..] == e2 && e2[1..] == e3 && e3[1..] == e4 && e4[1..] == [];
    assert Run(q4, e4).1 == b + [];
    assert Run(q3, e3).1 == [] + Run(q4, e4).1;
    assert Run(q2, e2).1 == a + Run(q3, e3).1;
    assert Run(q1, e1).1 == [] + Run(q2, e2).1;
  }

  lemma StaleRun(q: Queue)
    requires q == Empty(0, 2)
    ensures var q1 := Step(q, Segment(1, [1])).0;
            var q2 := Step(q1, Segment(0, [0])).0;
            var (q3, a) := Step(q2, Read(2));
            var q4 := Step(q3, Segment(3, [3])).0;
            && FillsRing(q1, 0, 1) && Acceptable(q1, 0, 1)
            && Step(q, Segment(1, [1])).1 == [] && Step(q1, Segment(0, [0])).1 == [] && Step(q3, Segment(3, [3])).1 == []
            && a == [0, 1] && Step(q4, Read(2)).1 == [0, 3]
  {
    hide Accept, Dequeue;
    StaleOne();
    StaleTwo();
    StaleThree();
  }

  lemma StaleOne()
    ensures Step(Empty(0, 2), Segment(1, [1])).0 == Queue(0, 0, 1, [0, 1], [false, true], true, 2)
  {
    var q := Empty(0, 2);
    assert q.marks == [false, false] && q.buf == [0, 0];
    var b := q.(buf := Put(q.buf, 1, [1]), hole := true, maxSeq := 2);
    assert b.buf == [0, 1];
    var m := MarkAt(b, 1);
    assert m == Queue(0, 0, 1, [0, 1], [false, true], true, 2);
    assert MarkRun(b, 1, 1) == m;
    assert Scan(m, 0) == 0;
  }

  lemma StaleTwo()
    ensures var q := Queue(0, 0, 1, [0, 1], [false, true], true, 2);
            && FillsRing(q, 0, 1) && Acceptable(q, 0, 1)
            && Step(q, Segment(0, [0])).0 == Queue(0, 2, 0, [0, 1], [true, true], false, 0)
  {
    var q := Queue(0, 0, 1, [0, 1], [false, true], true, 2);
    var b := q.(buf := Put(q.buf, 0, [0]), hole := true, maxSeq := 2);
    assert b.buf == [0, 1];
    var m := MarkAt(b, 0);
    assert m == Queue(0, 0, 0, [0, 1], [true, true], true, 2);
    assert MarkRun(b, 0, 1) == m;
    assert Scan(m, 2) == 2;
    assert Scan(m, 1) == 2;
    assert Scan(m, 0) == 2;
    assert Cleared(m.marks, 0, 0) == m.marks;
  }

  lemma StaleThree()
    ensures var q := Queue(0, 2, 0, [0, 1], [true, true], false, 0);
            var (q3, a) := Step(q, Read(2));
            var q4 := Step(q3, Segment(3, [3])).0;
            a == [0, 1] && Step(q4, Read(2)).1 == [0, 3]
  {
    var q := Queue(0, 2, 0, [0, 1], [true, true], false, 0);
    var (q3, a) := Step(q, Read(2));
    assert a == [0, 1];
    assert q3 == Queue(2, 2, 2, [0, 1], [true, true], false, 0);
    StaleFour();
  }

  lemma StaleFour()
    ensures var q := Queue(2, 2, 2, [0, 1], [true, true], false, 0);
            var q4 := Step(q, Segment(3, [3])).0;
            Step(q4, Read(2)).1 == [0, 3]
  {
    var q := Queue(2, 2, 2, [0, 1], [true, true], false, 0);
    var b := q.(buf := Put(q.buf, 3, [3]), hole := true, maxSeq := 4);
    assert b.buf == [0, 3];
    assert MarkRun(b, 3, 1) == MarkAt(b, 3) == b;
    assert Scan(b, 4) == 4;
    assert Scan(b, 3) == 4;
    assert Scan(b, 2) == 4;
    var q4 := Step(q, Segment(3, [3])).0;
    assert q4.wndMin == 2 && q4.nxtRcv == 4 && q4.buf == [0, 3];
    assert Get([0, 3], 2, 2) == [0, 3];
  }
}
