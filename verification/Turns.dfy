/** Who runs when: the order of the run queues over whole runs of the scheduler. */
module Turns {
  import opened Basics
  import opened Scheduling

  // ------------------------------------------------------------ eligible processes of a queue, in order

  ghost function Waiting(l: seq<nat>, current: nat): seq<nat> {
    Others(Others(l, current), 0)
  }

  lemma OthersFirst(h: nat, rest: seq<nat>, p: nat)
    ensures Others([h] + rest, p) == if h == p then Others(rest, p) else [h] + Others(rest, p)
  {
    assert ([h] + rest)[1..] == rest;
  }

  lemma OthersJoinFirst(h: nat, a: seq<nat>, b: seq<nat>, p: nat)
    requires Others(a + b, p) == Others(a, p) + Others(b, p)
    ensures Others(([h] + a) + b, p) == Others([h] + a, p) + Others(b, p)
  {
    hide Others;
    Reassociate([h], a, b);
    OthersFirst(h, a, p);
    OthersFirst(h, a + b, p);
    Reassociate([h], Others(a, p), Others(b, p));
  }

  lemma {:induction false} OthersJoin(a: seq<nat>, b: seq<nat>, p: nat)
    ensures Others(a + b, p) == Others(a, p) + Others(b, p)
    decreases |a|
  {
    if a == [] {
      assert a + b == b;
    } else {
      hide Others;
      OthersJoin(a[1..], b, p);
      OthersJoinFirst(a[0], a[1..], b, p);
      assert a == [a[0]] + a[1..];
    }
  }

  lemma {:induction false} OthersSwap(l: seq<nat>, p: nat, r: nat)
    ensures Others(Others(l, p), r) == Others(Others(l, r), p)
    decreases |l|
  {
    if l != [] {
      hide Others;
      var h, rest := l[0], l[1..];
      assert l == [h] + rest;
      OthersSwap(rest, p, r);
      OthersFirst(h, rest, p);
      OthersFirst(h, rest, r);
      OthersFirst(h, Others(rest, p), r);
      OthersFirst(h, Others(rest, r), p);
    }
  }

  lemma {:induction false} OthersIn(l: seq<nat>, p: nat, x: nat)
    ensures x in Others(l, p) <==> x in l && x != p
    decreases |l|
  {
    if l != [] { OthersIn(l[1..], p, x); }
  }

  lemma WaitingIn(l: seq<nat>, current: nat, x: nat)
    ensures x in Waiting(l, current) <==> x in l && Eligible(x, current)
  {
    OthersIn(l, current, x);
    OthersIn(Others(l, current), 0, x);
  }

  lemma {:induction false} PickIsFirst(l: seq<nat>, current: nat)
    ensures PickIn(l, current) == if Waiting(l, current) == [] then None else Some(Waiting(l, current)[0])
    decreases |l|
  {
    if l != [] {
      PickIsFirst(l[1..], current);
      OthersJoin([l[0]], l[1..], current);
      OthersJoin(Others([l[0]], current), Others(l[1..], current), 0);
      assert l == [l[0]] + l[1..];
      assert Waiting(l, current) == Waiting([l[0]], current) + Waiting(l[1..], current);
    }
  }

  /** Queue k is the first on which somebody waits. */
  ghost predicate Lowest(q: seq<seq<nat>>, current: nat, k: nat) {
    && k < |q| && Waiting(q[k], current) != []
    && forall m :: 0 <= m < k ==> Waiting(q[m], current) == []
  }

  lemma {:induction false} PickFromLowest(q: seq<seq<nat>>, current: nat, k: nat)
    requires Lowest(q, current, k)
    ensures Pick(q, current) == Some(Waiting(q[k], current)[0])
    decreases k
  {
    hide Waiting;
    PickIsFirst(q[0], current);
    if k > 0 {
      PickFromLowest(q[1..], current, k - 1);
    }
  }

  // ------------------------------------------------------------ round robin

  /** The queue for a process' priority. */
  ghost function Own(p: Process): nat {
    QueueFor(Clamp(Priority(p)))
  }

  /** Switched away from, process x does not get ahead of queue k. */
  ghost predicate StaysBehind(s: State, k: nat, x: nat) {
    x == 0 || !(x in s.procs && s.procs[x].status.Running?) || Own(s.procs[x]) >= k
  }

  /** A run of nothing but schedules. */
  ghost predicate Rounds(ss: seq<State>) {
    && ss != [] && Inv(ss[0]) && ss[0].procs[0].status.Running?
    && forall n, m :: 0 <= n && m == n + 1 && m < |ss| ==> Fine(ss[n]) && ss[m] == ScheduleStep(ss[n])
  }

  /** The process that step i of the round switches away from: the current one, then those of the queue. */
  ghost function Leaver(s: State, l: seq<nat>, i: nat): nat
    requires i <= |l|
  {
    if i == 0 then s.current else l[i - 1]
  }

  /** After i turns: the first i of the list have had theirs, the others wait in order, nobody waits ahead. */
  ghost predicate Turned(s0: State, s: State, k: nat, l: seq<nat>, i: nat) {
    && i <= |l| && Inv(s) && s.procs[0].status.Running? && k < QUEUES
    && s.current == Leaver(s0, l, i)
    && (forall m :: 0 <= m < k ==> Waiting(s.queues[m], s.current) == [])
    && l[i..] <= Waiting(s.queues[k], s.current)
    && (forall p :: p in s.procs ==>
          p in s0.procs && Priority(s.procs[p]) == Priority(s0.procs[p]) && s.procs[p].status == s0.procs[p].status)
  }

  lemma RoundInv(s: State)
    requires Inv(s) && s.procs[0].status.Running?
    ensures Inv(ScheduleStep(s)) && ScheduleStep(s).procs[0].status.Running?
    ensures forall p :: p in ScheduleStep(s).procs ==>
              && p in s.procs && Priority(ScheduleStep(s).procs[p]) == Priority(s.procs[p])
              && ScheduleStep(s).procs[p].status == s.procs[p].status
  {
    hide Exact;
    StepInv(s, Schedule);
    ScheduleRotates(s);
    RetiredQueues(s);
  }

  /** What waits on queue m after a switch from x to y. */
  lemma WaitingAfter(s: State, t: State, y: nat, m: nat)
    requires Inv(s) && Rotated(s, t) && t.current == y && y != s.current && m < QUEUES
    ensures var x, p := s.current, s.procs[s.current];
            Waiting(t.queues[m], y) == Others(Waiting(s.queues[m], x), y)
              + if x != 0 && p.status.Running? && m == QueueFor(Priority(p)) then [x] else []
  {
    hide Exact, Others;
    var x := s.current;
    var front := Others(s.queues[m], x);
    var tail := t.queues[m][|front|..];
    assert t.queues[m] == front + tail;
    OthersJoin(front, tail, y);
    OthersJoin(Others(front, y), Others(tail, y), 0);
    OthersSwap(front, y, 0);
    TailWaits(tail, x, y);
  }

  lemma TailWaits(tail: seq<nat>, x: nat, y: nat)
    requires (tail == [] || tail == [x]) && x != y
    ensures Others(Others(tail, y), 0) == if x != 0 then tail else []
  {
    if tail != [] {
      assert Others([x], y) == [x] + Others([], y);
    }
  }

  /** One turn: the first that waits gets it, and unless the process switched away from gets ahead, the others
      wait on as they did. */
  lemma OneTurn(s0: State, s: State, k: nat, l: seq<nat>, i: nat)
    requires Turned(s0, s, k, l, i) && i < |l| && NoDup(l)
    ensures var t := ScheduleStep(s);
            && t.current == l[i] != s.current && Rotated(s, t) && Inv(t)
            && (StaysBehind(s, k, s.current) ==> Turned(s0, t, k, l, i + 1))
  {
    hide Exact, Waiting, Rotated, StaysBehind;
    var x, y, t := s.current, l[i], ScheduleStep(s);
    RoundInv(s);
    assert l[i..][0] == y;
    PickFromLowest(s.queues, x, k);
    ScheduleRotates(s);
    PickRuns(s);
    if StaysBehind(s, k, x) {
      forall m | 0 <= m < k
        ensures Waiting(t.queues[m], y) == []
      {
        StaysAway(s, t, y, k, m);
      }
      StillWaiting(s, t, k, l, i);
    }
  }

  lemma StaysAway(s: State, t: State, y: nat, k: nat, m: nat)
    requires Inv(s) && Rotated(s, t) && t.current == y && y != s.current && m < k <= QUEUES
    requires StaysBehind(s, k, s.current) && Waiting(s.queues[m], s.current) == []
    ensures Waiting(t.queues[m], y) == []
  {
    hide Exact, Waiting, Rotated;
    WaitingAfter(s, t, y, m);
  }

  lemma StillWaiting(s: State, t: State, k: nat, l: seq<nat>, i: nat)
    requires Inv(s) && Rotated(s, t) && i < |l| && NoDup(l) && t.current == l[i] && l[i] != s.current && k < QUEUES
    requires l[i..] <= Waiting(s.queues[k], s.current)
    ensures l[i + 1..] <= Waiting(t.queues[k], t.current)
  {
    hide Exact, Waiting, Rotated;
    var x, y := s.current, l[i];
    var w := Waiting(s.queues[k], x);
    WaitingAfter(s, t, y, k);
    var rest := w[|l| - i..];
    assert w == [y] + l[i + 1..] + rest;
    OthersJoin([y] + l[i + 1..], rest, y);
    OthersJoin([y], l[i + 1..], y);
    assert y !in l[i + 1..];
    OthersNone(l[i + 1..], y);
    assert Others([y], y) == [];
  }

  /** Up to turn n the list has been served in order, if nobody who left before got ahead. */
  lemma {:induction false} TurnsSoFar(ss: seq<State>, k: nat, l: seq<nat>, n: nat)
    requires Rounds(ss) && n < |ss| && n <= |l| && NoDup(l)
    requires Lowest(ss[0].queues, ss[0].current, k) && k < QUEUES && l == Waiting(ss[0].queues[k], ss[0].current)
    requires forall i :: 0 <= i < n ==> StaysBehind(ss[0], k, Leaver(ss[0], l, i))
    ensures Turned(ss[0], ss[n], k, l, n)
    decreases n
  {
    hide Exact, Waiting, StaysBehind;
    if n == 0 {
      assert l[0..] == l;
    } else {
      TurnsSoFar(ss, k, l, n - 1);
      OneTurn(ss[0], ss[n - 1], k, l, n - 1);
      SameBehind(ss[0], ss[n - 1], k, ss[n - 1].current);
      assert StaysBehind(ss[0], k, Leaver(ss[0], l, n - 1));
    }
  }

  lemma SameBehind(s0: State, s: State, k: nat, x: nat)
    requires Fine(s) && x in s.procs
    requires forall p :: p in s.procs ==>
               p in s0.procs && Priority(s.procs[p]) == Priority(s0.procs[p]) && s.procs[p].status == s0.procs[p].status
    ensures StaysBehind(s0, k, x) <==> StaysBehind(s, k, x)
  {
  }

  /** Turns: while nothing but schedule happens, the processes that wait on the first occupied queue are chosen in
      order, each before any of them is chosen twice, if and only if none of those that make room for them belongs
      on a better queue. */
  lemma RoundRobin(ss: seq<State>, k: nat)
    requires Rounds(ss) && Lowest(ss[0].queues, ss[0].current, k) && k < QUEUES
    requires |Waiting(ss[0].queues[k], ss[0].current)| < |ss|
    ensures var l := Waiting(ss[0].queues[k], ss[0].current);
            && NoDup(l)
            && ((forall i :: 0 <= i < |l| ==> ss[i + 1].current == l[i]) <==>
                (forall i :: 0 <= i < |l| - 1 ==> StaysBehind(ss[0], k, Leaver(ss[0], l, i))))
  {
    hide Exact, Waiting, StaysBehind, Leaver;
    var l := Waiting(ss[0].queues[k], ss[0].current);
    WaitingOnce(ss[0], k);
    if forall i :: 0 <= i < |l| - 1 ==> StaysBehind(ss[0], k, Leaver(ss[0], l, i)) {
      forall i | 0 <= i < |l|
        ensures ss[i + 1].current == l[i]
      {
        TurnsSoFar(ss, k, l, i);
        OneTurn(ss[0], ss[i], k, l, i);
      }
    } else {
      var i := FirstAhead(ss[0], k, l);
      TurnsSoFar(ss, k, l, i);
      JumpsAhead(ss, k, l, i);
    }
  }

  lemma FirstAhead(s: State, k: nat, l: seq<nat>) returns (i: nat)
    requires exists j :: 0 <= j < |l| - 1 && !StaysBehind(s, k, Leaver(s, l, j))
    ensures i < |l| - 1 && !StaysBehind(s, k, Leaver(s, l, i))
    ensures forall j :: 0 <= j < i ==> StaysBehind(s, k, Leaver(s, l, j))
  {
    hide StaysBehind, Leaver;
    i := 0;
    while StaysBehind(s, k, Leaver(s, l, i))
      invariant i < |l| - 1
      invariant forall j :: 0 <= j < i ==> StaysBehind(s, k, Leaver(s, l, j))
      decreases |l| - i
    {
      var j :| 0 <= j < |l| - 1 && !StaysBehind(s, k, Leaver(s, l, j));
      assert j > i;
      i := i + 1;
    }
  }

  /** Nobody waits twice. */
  lemma WaitingOnce(s: State, k: nat)
    requires Inv(s) && k < QUEUES
    ensures NoDup(Waiting(s.queues[k], s.current))
  {
    hide Queued;
    var l := s.queues[k];
    forall p: nat
      ensures multiset(l)[p] <= 1
    {
      QueueCounts(s.queues, k, p);
      assert Queued(s.queues)[p] <= 1;
    }
    OthersOnce(l, s.current);
    OthersOnce(Others(l, s.current), 0);
    OnceNoDup(Waiting(l, s.current));
  }

  lemma {:induction false} QueueCounts(q: seq<seq<nat>>, k: nat, p: nat)
    requires k < |q|
    ensures multiset(q[k])[p] <= Queued(q)[p]
    decreases k
  {
    if k > 0 { QueueCounts(q[1..], k - 1, p); }
  }

  lemma {:induction false} OthersOnce(l: seq<nat>, p: nat)
    requires forall x: nat :: multiset(l)[x] <= 1
    ensures forall x: nat :: multiset(Others(l, p))[x] <= 1
    decreases |l|
  {
    forall x: nat
      ensures multiset(Others(l, p))[x] <= multiset(l)[x]
    {
      OthersCount(l, p, x);
    }
  }

  lemma {:induction false} OthersCount(l: seq<nat>, p: nat, x: nat)
    ensures multiset(Others(l, p))[x] <= multiset(l)[x]
    decreases |l|
  {
    if l != [] {
      OthersCount(l[1..], p, x);
      assert l == [l[0]] + l[1..];
    }
  }

  lemma {:induction false} OnceNoDup(l: seq<nat>)
    requires forall x: nat :: multiset(l)[x] <= 1
    ensures NoDup(l)
    decreases |l|
  {
    if l != [] {
      assert l == [l[0]] + l[1..];
      forall x: nat
        ensures multiset(l[1..])[x] <= 1
      {
        assert multiset(l)[x] == multiset([l[0]])[x] + multiset(l[1..])[x];
      }
      OnceNoDup(l[1..]);
      assert multiset(l)[l[0]] == 1 + multiset(l[1..])[l[0]];
      assert l[0] !in l[1..];
      forall i, j | 0 <= i < j < |l|
        ensures l[i] != l[j]
      {
        assert l[j] == l[1..][j - 1];
        if i > 0 { assert l[i] == l[1..][i - 1]; }
      }
    }
  }

  /** A process that leaves for a better queue is chosen again right after the next one. */
  lemma JumpsAhead(ss: seq<State>, k: nat, l: seq<nat>, i: nat)
    requires Rounds(ss) && i < |l| - 1 && |l| < |ss| && NoDup(l) && Turned(ss[0], ss[i], k, l, i)
    requires l == Waiting(ss[0].queues[k], ss[0].current)
    requires !StaysBehind(ss[0], k, Leaver(ss[0], l, i))
    ensures ss[i + 2].current == Leaver(ss[0], l, i) != l[i + 1]
  {
    hide Exact, Waiting, Rotated;
    var s, t := ss[i], ss[i + 1];
    assert t == ScheduleStep(s);
    var x, y := s.current, l[i];
    OneTurn(ss[0], s, k, l, i);
    var c := NextIsLeaver(s, t, k);
    PickFromLowest(t.queues, y, c);
    assert ss[i + 2] == ScheduleStep(t);
    NotLater(ss[0], k, l, i);
  }

  lemma NotLater(s: State, k: nat, l: seq<nat>, i: nat)
    requires k < |s.queues| && l == Waiting(s.queues[k], s.current) && NoDup(l) && i < |l| - 1
    ensures Leaver(s, l, i) != l[i + 1]
  {
    WaitingIn(s.queues[k], s.current, l[i + 1]);
    assert l[i + 1] in l;
  }

  lemma NextIsLeaver(s: State, t: State, k: nat) returns (c: nat)
    requires Inv(s) && Rotated(s, t) && t.current != s.current && k < QUEUES
    requires forall m :: 0 <= m < k ==> Waiting(s.queues[m], s.current) == []
    requires !StaysBehind(s, k, s.current)
    ensures c < k && Lowest(t.queues, t.current, c) && Waiting(t.queues[c], t.current) == [s.current]
  {
    hide Exact, Waiting;
    c := QueueFor(Priority(s.procs[s.current]));
    forall m | 0 <= m < k
      ensures Waiting(t.queues[m], t.current) == if m == c then [s.current] else []
    {
      WaitingAfter(s, t, t.current, m);
      assert Others([], t.current) == [];
    }
  }

  // ------------------------------------------------------------ seats over whole runs

  /** Nobody who waits sits on a queue worse than the one for its priority, nor is recorded for one. */
  ghost predicate Seated(s: State) {
    && |s.queues| == QUEUES
    && (forall p :: p in s.procs && s.procs[p].status.Running? ==> s.procs[p].queueIndex <= Own(s.procs[p]))
    && forall k, p :: 0 <= k < QUEUES && p in s.queues[k] && p != s.current && p in s.procs ==>
         s.procs[p].status.Running? && k <= Own(s.procs[p])
  }

  /** Enabled, and a wake-up finds its process asleep or still on the processor. */
  ghost predicate Calm(s: State, e: Event)
    requires Fine(s)
  {
    Enabled(s, e) && (e.Awake? ==> s.procs[e.pid].status.Sleeping? || e.pid == s.current)
  }

  lemma SeatedSame(s: State, t: State)
    requires Inv(s) && Seated(s) && t.queues == s.queues && t.current == s.current
    requires t.procs.Keys == s.procs.Keys && forall p :: p in s.procs && p != s.current ==> t.procs[p] == s.procs[p]
    requires t.procs[s.current].status.Running? ==> t.procs[s.current].queueIndex <= Own(t.procs[s.current])
    ensures Seated(t)
  {
  }

  /** One process more on queue k, which is not worse than the one for its priority. */
  lemma SeatedMore(s: State, t: State, k: nat, pid: nat)
    requires Inv(s) && Seated(s) && k < QUEUES && t.current == s.current != pid && pid in t.procs
    requires t.queues == s.queues[k := [pid] + s.queues[k]] || t.queues == s.queues[k := s.queues[k] + [pid]]
    requires t.procs == s.procs[pid := t.procs[pid]] && t.procs[pid].status.Running?
    requires k <= Own(t.procs[pid]) && t.procs[pid].queueIndex <= Own(t.procs[pid])
    requires pid in s.procs ==> s.procs[pid].status.Sleeping?
    ensures Seated(t)
  {
    hide Exact, Own;
    forall m, p | 0 <= m < QUEUES && p in t.queues[m] && p != t.current && p in t.procs
      ensures t.procs[p].status.Running? && m <= Own(t.procs[p])
    {
      if p == pid {
        if p in s.queues[m] { NotQueued(s, m, pid); }
      } else {
        assert p in s.queues[m];
      }
    }
  }

  lemma NotQueued(s: State, m: nat, p: nat)
    requires Inv(s) && m < QUEUES && p != s.current && (p in s.procs ==> s.procs[p].status.Sleeping?)
    ensures p !in s.queues[m]
  {
    hide Queued;
    assert !Belongs(s, p);
    if p in s.queues[m] { InQueued(s.queues, m, p); }
  }

  lemma SeatedSchedule(s: State)
    requires Inv(s) && Seated(s) && s.procs[0].status.Running?
    ensures Seated(ScheduleStep(s))
  {
    hide Exact, Others, Rotated, ScheduleStep, Own;
    var t := ScheduleStep(s);
    RoundInv(s);
    ScheduleRotates(s);
    ScheduleRecords(s);
    forall m, p | 0 <= m < QUEUES && p in t.queues[m] && p != t.current && p in t.procs
      ensures t.procs[p].status.Running? && m <= Own(t.procs[p])
    {
      SameOwn(s.procs[p], t.procs[p]);
      if Rotated(s, t) { RotatedSeat(s, t, m, p); }
    }
  }

  lemma SameOwn(a: Process, b: Process)
    requires Priority(a) == Priority(b)
    ensures Own(a) == Own(b)
  {
  }

  lemma RotatedSeat(s: State, t: State, m: nat, p: nat)
    requires Fine(s) && Rotated(s, t) && m < QUEUES && p in t.queues[m]
    ensures p in s.queues[m] || p == s.current
    ensures p == s.current ==> s.procs[p].status.Running? && m == Own(s.procs[p])
  {
    OthersIn(s.queues[m], s.current, p);
  }

  lemma ScheduleRecords(s: State)
    requires Inv(s) && Seated(s)
    ensures forall p :: p in ScheduleStep(s).procs && ScheduleStep(s).procs[p].status.Running? ==>
              ScheduleStep(s).procs[p].queueIndex <= Own(ScheduleStep(s).procs[p])
  {
    hide Exact, Pick, Delete;
  }

  lemma SeatedStep(s: State, e: Event)
    requires Inv(s) && Seated(s) && s.procs[0].status.Running? && Calm(s, e)
    ensures Seated(Next(s, e))
  {
    hide Exact, Seated;
    var t := Next(s, e);
    SeatFacts(s);
    match e
    case Fork => SeatedMore(s, t, s.procs[s.current].queueIndex, s.nextPid);
    case Expire(pid) => SeatedMore(s, t, t.procs[pid].queueIndex, pid);
    case Schedule => SeatedSchedule(s);
    case Awake(pid, _) =>
      if pid == s.current { SeatedSame(s, t); } else { SeatedMore(s, t, t.procs[pid].queueIndex, pid); }
    case Tick =>
      if s.procs[s.current].status.Running? { TickSinks(s.procs[s.current]); }
      SeatedSame(s, t);
    case _ => SeatedSame(s, t);
  }

  lemma SeatFacts(s: State)
    requires Seated(s)
    ensures forall p :: p in s.procs && s.procs[p].status.Running? ==> s.procs[p].queueIndex <= Own(s.procs[p])
  {
  }

  lemma TickSinks(p: Process)
    requires FineProcess(p) && p.status.Running?
    ensures Own(p.(sleepTime := Clamp(p.sleepTime - QUANTUM))) >= Own(p)
  {
  }

  /** A run of calm events from boot. */
  ghost predicate CalmRun(ss: seq<State>, es: seq<Event>) {
    && Trace(ss, es) && ss[0] == Boot()
    && forall n :: 0 <= n < |es| ==> Fine(ss[n]) && Calm(ss[n], es[n])
  }

  /** Over every calm run from boot nobody who waits sits too far back. */
  lemma {:induction false} RunSeated(ss: seq<State>, es: seq<Event>, n: nat)
    requires CalmRun(ss, es) && n < |ss|
    ensures Inv(ss[n]) && Seated(ss[n]) && ss[n].procs[0].status.Running?
    decreases n
  {
    hide Exact, Next, Seated;
    if n == 0 {
      BootInv();
      BootSeated();
    } else {
      RunSeated(ss, es, n - 1);
      TraceAt(ss, es, n - 1);
      StepInv(ss[n - 1], es[n - 1]);
      SeatedStep(ss[n - 1], es[n - 1]);
    }
  }

  lemma BootSeated()
    ensures Seated(Boot())
  {
  }

  /** So in every state of a calm run that schedules follow, the waiting processes get their turns in order if and
      only if the current process, on leaving, does not get ahead of them. */
  lemma TurnsInRun(before: seq<State>, es: seq<Event>, ss: seq<State>, k: nat)
    requires CalmRun(before, es) && Rounds(ss) && ss[0] == before[|es|]
    requires Lowest(ss[0].queues, ss[0].current, k) && k < QUEUES
    requires 1 < |Waiting(ss[0].queues[k], ss[0].current)| < |ss|
    ensures var l := Waiting(ss[0].queues[k], ss[0].current);
            (forall i :: 0 <= i < |l| ==> ss[i + 1].current == l[i]) <==> StaysBehind(ss[0], k, ss[0].current)
  {
    hide Exact, Waiting, StaysBehind, CalmRun;
    CalmLength(before, es);
    RunSeated(before, es, |es|);
    RoundRobin(ss, k);
    var s := ss[0];
    var l := Waiting(s.queues[k], s.current);
    forall i | 0 < i < |l|
      ensures StaysBehind(s, k, Leaver(s, l, i))
    {
      SeatedBehind(s, k, l[i - 1]);
    }
    assert Leaver(s, l, 0) == s.current;
  }

  lemma CalmLength(ss: seq<State>, es: seq<Event>)
    requires CalmRun(ss, es)
    ensures |ss| == |es| + 1
  {
  }

  lemma SeatedBehind(s: State, k: nat, x: nat)
    requires Seated(s) && k < QUEUES && x in Waiting(s.queues[k], s.current)
    ensures StaysBehind(s, k, x)
  {
    WaitingIn(s.queues[k], s.current, x);
  }

  /** A child runs next if nobody waits on a better queue than its parent's. */
  lemma ChildRunsNext(s: State)
    requires Inv(s) && s.procs[s.current].status.Running?
    requires forall m :: 0 <= m < s.procs[s.current].queueIndex ==> Waiting(s.queues[m], s.current) == []
    ensures ForkStep(s).procs[s.nextPid] == s.procs[s.current]
    ensures ScheduleStep(ForkStep(s)).current == s.nextPid
  {
    hide Exact;
    var t, k := ForkStep(s), s.procs[s.current].queueIndex;
    OthersFirst(s.nextPid, s.queues[k], s.current);
    OthersFirst(s.nextPid, Others(s.queues[k], s.current), 0);
    hide Others;
    PickFromLowest(t.queues, t.current, k);
  }

  /** A process whose timed sleep ends gets a quantum more, a thousand at most, and stands behind all others on
      the queue for its priority. */
  lemma ExpiredWaitsLast(s: State, pid: nat)
    requires Inv(s) && pid in s.procs && pid != 0 && pid != s.current && s.procs[pid].status.Sleeping?
    requires 0 <= s.procs[pid].sleepTime <= 1000
    ensures var t := ExpireStep(s, pid);
            && t.procs[pid].sleepTime == AtMost1000(s.procs[pid].sleepTime + 10)
            && forall k :: 0 <= k < QUEUES ==>
                 Waiting(t.queues[k], t.current)
                 == Waiting(s.queues[k], s.current) + if k == Own(t.procs[pid]) then [pid] else []
  {
    hide Exact;
    var t := ExpireStep(s, pid);
    var k := Own(t.procs[pid]);
    OthersJoin(s.queues[k], [pid], s.current);
    OthersJoin(Others(s.queues[k], s.current), Others([pid], s.current), 0);
    assert Others([pid], s.current) == [pid] && Others([pid], 0) == [pid];
  }

  /** A process that exits is gone with the next schedule; the others, and their order, stay. */
  lemma ExitedIsGone(s: State)
    requires Inv(s) && s.current != 0 && s.procs[0].status.Running?
    ensures var t := ScheduleStep(ExitStep(s));
            && t.procs == s.procs - {s.current} && t.current != s.current
            && forall k :: 0 <= k < QUEUES ==> t.queues[k] == Others(s.queues[k], s.current)
  {
    hide Exact, Others;
    var u := ExitStep(s);
    ExitExact(s);
    ScheduleRotates(u);
    if Pick(u.queues, u.current).Some? { PickRuns(u); }
    assert u.procs - {s.current} == s.procs - {s.current};
  }

  // ------------------------------------------------------------ sleep and priority

  ghost function AtMost1000(n: nat): nat {
    if n < 1000 then n else 1000
  }

  /** Neither woken, nor its timed sleep ended, nor charged a quantum before it is switched away from. */
  ghost predicate Undisturbed(s: State, e: Event, p: nat) {
    e != Expire(p) && !(e.Awake? && e.pid == p) && !(e.Tick? && s.current == p)
  }

  lemma SleepsOn(s: State, e: Event, p: nat, stamp: int)
    requires Fine(s) && Admitted(s, e) && Undisturbed(s, e, p)
    requires p in s.procs && s.procs[p].status.Sleeping? && s.procs[p].sleepTime == stamp && s.procs[p].staticPriority == 0
    ensures var t := Next(s, e);
            p in t.procs && t.procs[p].status.Sleeping? && t.procs[p].sleepTime == stamp && t.procs[p].staticPriority == 0
  {
    hide Pick, Delete;
  }

  lemma {:induction false} StampKept(ss: seq<State>, es: seq<Event>, p: nat, time: Time, n: nat)
    requires Trace(ss, es) && es != [] && es[0] == Sleep(time) && ss[0].current == p && 0 < n < |ss|
    requires forall i :: 0 < i < |es| ==> Undisturbed(ss[i], es[i], p)
    ensures p in ss[n].procs && ss[n].procs[p].status.Sleeping?
    ensures ss[n].procs[p].sleepTime == Stamp(time) && ss[n].procs[p].staticPriority == 0
    decreases n
  {
    hide Next;
    TraceAt(ss, es, n - 1);
    if n == 1 {
      SleepStamps(ss[0], time);
    } else {
      StampKept(ss, es, p, time, n - 1);
      SleepsOn(ss[n - 1], es[n - 1], p, Stamp(time));
    }
  }

  lemma SleepStamps(s: State, time: Time)
    requires Fine(s) && Admitted(s, Sleep(time))
    ensures s.current in Next(s, Sleep(time)).procs
    ensures var p := Next(s, Sleep(time)).procs[s.current];
            p.status.Sleeping? && p.sleepTime == Stamp(time) && p.staticPriority == 0
  {
  }

  /** Whatever else happens meanwhile, a process woken after a sleep has the time that passed as its priority,
      a thousand at most, and if it was switched away from it stands first on the queue for that priority. */
  lemma SleepIsPriority(ss: seq<State>, es: seq<Event>, p: nat, time: Time, elapsed: nat)
    requires Trace(ss, es) && es != [] && es[0] == Sleep(time) && ss[0].current == p && time + elapsed < WORD
    requires forall i :: 0 < i < |es| ==> Undisturbed(ss[i], es[i], p)
    requires Fine(ss[|es|])
    ensures var s := ss[|es|];
            var k := if elapsed < 1000 then 9 - elapsed / 100 else 0;
            && p in s.procs && s.procs[p].staticPriority == 0
            && var t := AwakeStep(s, p, time + elapsed);
               && t.procs[p] == Process(Running, AtMost1000(elapsed), 0, k)
               && t.queues == if s.current == p then s.queues else s.queues[k := [p] + s.queues[k]]
  {
    hide Exact, Next;
    StampKept(ss, es, p, time, |es|);
    SleptIsElapsed(time, elapsed);
  }

  /** If the clock ticks between the sleep and the switch, the quantum is taken off the time stamp: the process is
      then credited with the time it slept if and only if that is a second, or it fell asleep at time zero. */
  lemma TickSpoilsCredit(s: State, time: Time, elapsed: nat)
    requires Inv(s) && s.procs[s.current].status.Running? && time + elapsed < WORD
    ensures var t := TickStep(SleepStep(s, time));
            && Inv(t)
            && (AwakeStep(t, s.current, time + elapsed).procs[s.current].sleepTime == AtMost1000(elapsed)
                <==> elapsed >= 1000 || time == 0)
  {
    hide Exact;
    SleepExact(s, time);
    TickExact(SleepStep(s, time));
    SpoiledStamp(time, elapsed);
  }

  lemma SpoiledStamp(time: Time, elapsed: nat)
    requires time + elapsed < WORD
    ensures Slept(time + elapsed, Clamp(Stamp(time) - QUANTUM)) == AtMost1000(elapsed) <==> elapsed >= 1000 || time == 0
  {
    var c := Clamp(Stamp(time) - QUANTUM);
    if time + elapsed >= c {
      assert (time + elapsed - c) % WORD == time + elapsed - c;
    } else {
      assert false;
    }
  }

  /** A process that computes sinks: every quantum takes ten off its priority until none is left. */
  lemma {:induction false} QuantaSink(ss: seq<State>, es: seq<Event>, n: nat)
    requires Trace(ss, es) && n < |ss| && (forall i :: 0 <= i < |es| ==> es[i] == Tick)
    requires ss[0].current in ss[0].procs && 0 <= ss[0].procs[ss[0].current].sleepTime <= 1000
    ensures ss[n].current == ss[0].current && ss[0].current in ss[n].procs && ss[n].queues == ss[0].queues
    ensures var before := ss[0].procs[ss[0].current].sleepTime;
            ss[n].procs[ss[0].current].sleepTime == if before > 10 * n then before - 10 * n else 0
    decreases n
  {
    if n > 0 {
      QuantaSink(ss, es, n - 1);
      TraceAt(ss, es, n - 1);
    }
  }
}
