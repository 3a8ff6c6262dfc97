/** The multilevel scheduler of scheduler/scheduler.c. Processes are known by their pid; the run queues
    hold pids, and ll_delete_node of the current node takes the first occurrence of the current pid. */
module Scheduling {
  import opened Basics

  datatype Status = Running | Sleeping | Exiting

  datatype Process = Process(status: Status, sleepTime: int, staticPriority: nat, queueIndex: nat)

  datatype State = State(queues: seq<seq<nat>>, procs: map<nat, Process>, current: nat, nextPid: nat)

  const QUEUES: nat := 10
  const QUANTUM: nat := 10
  const WORD: nat := 0x1_0000_0000

  /** system.time, an unsigned 32-bit counter. */
  type Time = t: nat | t < WORD

  // ------------------------------------------------------------ priorities

  /** adjust_sched_queue's switch; a priority outside 0 to 1000 would leave the index unset. */
  function QueueFor(priority: int): (index: nat)
    requires 0 <= priority <= 1000
    ensures index < QUEUES
    ensures index == if priority == 1000 then 0 else 9 - priority / 100
  {
    if priority <= 99 then 9
    else if priority <= 199 then 8
    else if priority <= 299 then 7
    else if priority <= 399 then 6
    else if priority <= 499 then 5
    else if priority <= 599 then 4
    else if priority <= 699 then 3
    else if priority <= 799 then 2
    else if priority <= 899 then 1
    else 0
  }

  function Priority(p: Process): int {
    p.sleepTime + p.staticPriority * 10
  }

  function Adjusted(p: Process): Process
    requires 0 <= Priority(p) <= 1000
  {
    p.(queueIndex := QueueFor(Priority(p)))
  }

  /** The time stored in a signed field. */
  function Stamp(time: Time): int {
    if time < 0x8000_0000 then time else time - WORD
  }

  /** How long the process slept, in 32-bit arithmetic, at most 1000. */
  function Slept(time: Time, stamp: int): (r: nat)
    ensures r <= 1000
  {
    var d := (time - stamp) % WORD;
    if d >= 1000 then 1000 else d
  }

  function Clamp(x: int): (r: nat)
    ensures r <= 1000
  {
    if x > 1000 then 1000 else if x < 0 then 0 else x
  }

  /** A process that slept between two readings of the clock is credited with the difference. */
  lemma SleptIsElapsed(before: Time, elapsed: nat)
    requires before + elapsed < WORD
    ensures Slept(before + elapsed, Stamp(before)) == if elapsed >= 1000 then 1000 else elapsed
  {
    assert (before + elapsed - Stamp(before)) % WORD == elapsed by {
      if before >= 0x8000_0000 {
        assert before + elapsed - Stamp(before) == elapsed + WORD;
      }
    }
  }

  // ------------------------------------------------------------ run queues

  function Unlinked(l: seq<nat>, p: nat): (r: seq<nat>)
    ensures multiset(r) == multiset(l) - multiset{p}
  {
    if l == [] then []
    else
      assert l == [l[0]] + l[1..];
      if l[0] == p then l[1..] else [l[0]] + Unlinked(l[1..], p)
  }

  /** How often each pid stands on the run queues. */
  ghost function Queued(q: seq<seq<nat>>): multiset<nat> {
    if q == [] then multiset{} else multiset(q[0]) + Queued(q[1..])
  }

  /** Takes the first occurrence of p off the queues. */
  function Delete(q: seq<seq<nat>>, p: nat): (r: seq<seq<nat>>)
    ensures |r| == |q|
  {
    if q == [] then []
    else if p in q[0] then [Unlinked(q[0], p)] + q[1..]
    else [q[0]] + Delete(q[1..], p)
  }

  function Append(q: seq<seq<nat>>, i: nat, p: nat): (r: seq<seq<nat>>)
    requires i < |q|
  {
    q[i := q[i] + [p]]
  }

  function Prepend(q: seq<seq<nat>>, i: nat, p: nat): (r: seq<seq<nat>>)
    requires i < |q|
  {
    q[i := [p] + q[i]]
  }

  lemma {:induction false} QueuedDelete(q: seq<seq<nat>>, p: nat)
    ensures Queued(Delete(q, p)) == Queued(q) - multiset{p}
    decreases |q|
  {
    if q != [] {
      hide Unlinked;
      var r := Delete(q, p);
      if p in q[0] {
        assert r[1..] == q[1..];
        assert Queued(r) == multiset(Unlinked(q[0], p)) + Queued(q[1..]);
      } else {
        QueuedDelete(q[1..], p);
        assert r[1..] == Delete(q[1..], p);
        assert Queued(r) == multiset(q[0]) + (Queued(q[1..]) - multiset{p});
      }
    }
  }

  lemma {:induction false} QueuedUpdate(q: seq<seq<nat>>, i: nat, l: seq<nat>, p: nat)
    requires i < |q| && multiset(l) == multiset(q[i]) + multiset{p}
    ensures Queued(q[i := l]) == Queued(q) + multiset{p}
    decreases |q|
  {
    if i == 0 {
      assert q[0 := l][1..] == q[1..];
    } else {
      QueuedUpdate(q[1..], i - 1, l, p);
      assert q[i := l][1..] == q[1..][i - 1 := l];
    }
  }

  lemma QueuedAdd(q: seq<seq<nat>>, i: nat, p: nat)
    requires i < |q|
    ensures Queued(Append(q, i, p)) == Queued(q) + multiset{p}
    ensures Queued(Prepend(q, i, p)) == Queued(q) + multiset{p}
  {
    QueuedUpdate(q, i, q[i] + [p], p);
    QueuedUpdate(q, i, [p] + q[i], p);
  }

  lemma {:induction false} QueuedHas(q: seq<seq<nat>>, i: nat, j: nat)
    requires i < |q| && j < |q[i]|
    ensures Queued(q)[q[i][j]] > 0
    decreases i
  {
    if i > 0 {
      QueuedHas(q[1..], i - 1, j);
    }
  }

  /** The list without p. */
  ghost function Others(l: seq<nat>, p: nat): seq<nat> {
    if l == [] then [] else (if l[0] == p then [] else [l[0]]) + Others(l[1..], p)
  }

  lemma {:induction false} OthersNone(l: seq<nat>, p: nat)
    requires p !in l
    ensures Others(l, p) == l
    decreases |l|
  {
    if l != [] {
      OthersNone(l[1..], p);
      assert l == [l[0]] + l[1..];
    }
  }

  lemma {:induction false} UnlinkedIsOthers(l: seq<nat>, p: nat)
    requires multiset(l)[p] <= 1
    ensures Unlinked(l, p) == Others(l, p)
    decreases |l|
  {
    if l != [] {
      assert l == [l[0]] + l[1..];
      if l[0] == p {
        assert p !in l[1..];
        OthersNone(l[1..], p);
      } else {
        UnlinkedIsOthers(l[1..], p);
      }
    }
  }

  /** A process that is queued once at most is taken off its queue, and the others keep their order. */
  lemma {:induction false} DeleteIsOthers(q: seq<seq<nat>>, p: nat, k: nat)
    requires Queued(q)[p] <= 1 && k < |q|
    ensures Delete(q, p)[k] == Others(q[k], p)
    decreases |q|
  {
    hide Others, Unlinked;
    if p in q[0] {
      if k == 0 {
        UnlinkedIsOthers(q[0], p);
      } else {
        if p in q[k] { InQueued(q[1..], k - 1, p); }
        OthersNone(q[k], p);
      }
    } else if k == 0 {
      OthersNone(q[0], p);
    } else {
      DeleteIsOthers(q[1..], p, k - 1);
    }
  }

  lemma {:induction false} InQueued(q: seq<seq<nat>>, k: nat, p: nat)
    requires k < |q| && p in q[k]
    ensures Queued(q)[p] > 0
    decreases k
  {
    if k > 0 { InQueued(q[1..], k - 1, p); }
  }

  // ------------------------------------------------------------ the choice of the next process

  predicate Eligible(p: nat, current: nat) {
    p != current && p != 0
  }

  function PickIn(l: seq<nat>, current: nat): Option<nat> {
    if l == [] then None
    else if Eligible(l[0], current) then Some(l[0])
    else PickIn(l[1..], current)
  }

  function Pick(q: seq<seq<nat>>, current: nat): Option<nat> {
    if q == [] then None
    else if PickIn(q[0], current).Some? then PickIn(q[0], current)
    else Pick(q[1..], current)
  }

  ghost predicate NoneIn(l: seq<nat>, current: nat) {
    forall j :: 0 <= j < |l| ==> !Eligible(l[j], current)
  }

  lemma {:induction false} PickInFirst(l: seq<nat>, current: nat) returns (j: nat)
    ensures PickIn(l, current).None? ==> NoneIn(l, current)
    ensures PickIn(l, current).Some? ==>
      j < |l| && PickIn(l, current) == Some(l[j]) && Eligible(l[j], current) && NoneIn(l[..j], current)
    decreases |l|
  {
    if l == [] || Eligible(l[0], current) {
      j := 0;
    } else {
      var k := PickInFirst(l[1..], current);
      j := k + 1;
      if PickIn(l, current).Some? {
        assert l[..j] == [l[0]] + l[1..][..k];
      } else {
        assert forall i :: 1 <= i < |l| ==> l[i] == l[1..][i - 1];
      }
    }
  }

  /** The choice comes from the lowest-numbered queue holding an eligible process, and is the first
      eligible one there; there is none only if no queue holds one. */
  lemma {:induction false} PickLowest(q: seq<seq<nat>>, current: nat) returns (i: nat, j: nat)
    ensures Pick(q, current).None? ==> forall k :: 0 <= k < |q| ==> NoneIn(q[k], current)
    ensures Pick(q, current).Some? ==>
      && i < |q| && j < |q[i]| && Pick(q, current) == Some(q[i][j]) && Eligible(q[i][j], current)
      && NoneIn(q[i][..j], current)
      && forall k :: 0 <= k < i ==> NoneIn(q[k], current)
    decreases |q|
  {
    i, j := 0, 0;
    if q != [] {
      j := PickInFirst(q[0], current);
      if PickIn(q[0], current).None? {
        var i', j' := PickLowest(q[1..], current);
        i, j := i' + 1, j';
        assert forall k :: 1 <= k < |q| ==> q[k] == q[1..][k - 1];
      }
    }
  }

  // ------------------------------------------------------------ the operations

  function SleepStep(s: State, time: Time): State
    requires s.current in s.procs
  {
    s.(procs := s.procs[s.current := s.procs[s.current].(sleepTime := Stamp(time), status := Sleeping)])
  }

  function Woken(p: Process, time: Time): Process
    requires p.staticPriority == 0
  {
    Adjusted(p.(sleepTime := Slept(time, p.sleepTime))).(status := Running)
  }

  function AwakeStep(s: State, pid: nat, time: Time): State
    requires Fine(s) && pid in s.procs
  {
    var p := Woken(s.procs[pid], time);
    var q := if s.current != pid && s.procs[pid].status.Sleeping? then Prepend(s.queues, p.queueIndex, pid) else s.queues;
    s.(procs := s.procs[pid := p], queues := q)
  }

  function ForkStep(s: State): State
    requires Fine(s)
  {
    var parent := s.procs[s.current];
    s.(procs := s.procs[s.nextPid := parent],
       queues := Prepend(s.queues, parent.queueIndex, s.nextPid),
       nextPid := s.nextPid + 1)
  }

  function ExitStep(s: State): State
    requires s.current in s.procs
  {
    s.(procs := s.procs[s.current := s.procs[s.current].(status := Exiting)])
  }

  /** The timer takes a quantum off the current process. */
  function TickStep(s: State): State
    requires s.current in s.procs
  {
    var p := s.procs[s.current];
    s.(procs := s.procs[s.current := p.(sleepTime := Clamp(p.sleepTime - QUANTUM))])
  }

  /** The timer ends a timed sleep, appending the process without asking whether it is current. */
  function ExpireStep(s: State, pid: nat): State
    requires Fine(s) && pid in s.procs
  {
    var was := s.procs[pid];
    var p := Adjusted(was.(sleepTime := Clamp(was.sleepTime + QUANTUM))).(status := Running);
    s.(procs := s.procs[pid := p], queues := Append(s.queues, p.queueIndex, pid))
  }

  /** What schedule does with the process it switches away from. */
  function Retired(s: State): State
    requires Fine(s)
  {
    match s.procs[s.current].status
    case Running =>
      var p := Adjusted(s.procs[s.current]);
      s.(procs := s.procs[s.current := p], queues := Append(Delete(s.queues, s.current), p.queueIndex, s.current))
    case Sleeping =>
      s.(queues := Delete(s.queues, s.current))
    case Exiting =>
      s.(procs := s.procs - {s.current}, queues := Delete(s.queues, s.current))
  }

  function ScheduleStep(s: State): State
    requires Fine(s)
  {
    match Pick(s.queues, s.current)
    case Some(next) => Retired(s).(current := next)
    case None =>
      if s.procs[s.current].status.Running?
      then s.(procs := s.procs[s.current := Adjusted(s.procs[s.current])])
      else Retired(s).(current := 0)
  }

  // ------------------------------------------------------------ invariants

  ghost predicate FineProcess(p: Process) {
    p.queueIndex < QUEUES && p.staticPriority == 0 && (p.status.Running? ==> 0 <= p.sleepTime <= 1000)
  }

  /** The process records make sense; process 0 never exits, and an exiting process is current. */
  ghost predicate Fine(s: State) {
    && |s.queues| == QUEUES
    && 0 in s.procs && s.current in s.procs && !s.procs[0].status.Exiting?
    && (forall p :: p in s.procs ==> p < s.nextPid && FineProcess(s.procs[p]))
    && forall p :: p in s.procs && s.procs[p].status.Exiting? ==> p == s.current
  }

  ghost predicate Belongs(s: State, p: nat) {
    p in s.procs && (s.procs[p].status.Running? || p == s.current)
  }

  /** Every process that is running or current is on the run queues exactly once, no other pid at all. */
  ghost predicate Exact(s: State) {
    forall p: nat :: Queued(s.queues)[p] == if Belongs(s, p) then 1 else 0
  }

  ghost predicate Inv(s: State) {
    Fine(s) && Exact(s)
  }

  // ------------------------------------------------------------ what every operation keeps

  lemma SleepExact(s: State, time: Time)
    requires Inv(s)
    ensures Inv(SleepStep(s, time))
  {
    var t := SleepStep(s, time);
    assert forall p: nat :: Belongs(t, p) <==> Belongs(s, p);
  }

  /** A wake-up keeps the queues exact whatever it hits, the current process included. */
  lemma AwakeExact(s: State, pid: nat, time: Time)
    requires Inv(s) && pid in s.procs
    ensures Inv(AwakeStep(s, pid, time))
    ensures AwakeStep(s, pid, time).procs[pid].status.Running?
  {
    hide Queued;
    var t := AwakeStep(s, pid, time);
    var p := Woken(s.procs[pid], time);
    QueuedAdd(s.queues, p.queueIndex, pid);
    assert forall x: nat :: Belongs(t, x) <==> Belongs(s, x) || x == pid;
  }

  /** The child is queued as running, which is right if and only if the parent is running. */
  lemma ForkExact(s: State)
    requires Inv(s)
    ensures Exact(ForkStep(s)) <==> s.procs[s.current].status.Running?
    ensures s.procs[s.current].status.Running? ==> Inv(ForkStep(s))
  {
    hide Queued;
    var t := ForkStep(s);
    QueuedAdd(s.queues, s.procs[s.current].queueIndex, s.nextPid);
    assert s.nextPid !in s.procs;
    assert Queued(t.queues)[s.nextPid] == 1;
    assert forall x: nat :: x != s.nextPid ==> (Belongs(t, x) <==> Belongs(s, x));
  }

  lemma ExitExact(s: State)
    requires Inv(s) && s.current != 0
    ensures Inv(ExitStep(s))
  {
    var t := ExitStep(s);
    assert forall p: nat :: Belongs(t, p) <==> Belongs(s, p);
  }

  lemma TickExact(s: State)
    requires Inv(s)
    ensures Inv(TickStep(s))
  {
    var t := TickStep(s);
    assert forall p: nat :: Belongs(t, p) <==> Belongs(s, p);
  }

  /** The end of a timed sleep keeps the queues exact if and only if it finds the process asleep and off
      the processor. */
  lemma ExpireExact(s: State, pid: nat)
    requires Inv(s) && pid in s.procs
    ensures Exact(ExpireStep(s, pid)) <==> s.procs[pid].status.Sleeping? && pid != s.current
    ensures Exact(ExpireStep(s, pid)) ==> Inv(ExpireStep(s, pid))
  {
    hide Queued;
    var t := ExpireStep(s, pid);
    QueuedAdd(s.queues, t.procs[pid].queueIndex, pid);
    assert forall x: nat :: x != pid ==> (Belongs(t, x) <==> Belongs(s, x));
    assert Queued(t.queues)[pid] == Queued(s.queues)[pid] + 1;
  }

  /** Retiring the current process leaves the queues with the running ones only. */
  lemma RetiredQueues(s: State)
    requires Inv(s)
    ensures var t := Retired(s);
            && |t.queues| == QUEUES
            && (forall p :: p in t.procs <==> p in s.procs && (p == s.current ==> !s.procs[p].status.Exiting?))
            && (forall p :: p in t.procs ==> t.procs[p].status == s.procs[p].status && FineProcess(t.procs[p]))
            && t.nextPid == s.nextPid
            && forall p: nat :: Queued(t.queues)[p] == if p in t.procs && t.procs[p].status.Running? then 1 else 0
  {
    hide Queued;
    var q := Delete(s.queues, s.current);
    QueuedDelete(s.queues, s.current);
    assert Belongs(s, s.current);
    if s.procs[s.current].status.Running? {
      QueuedAdd(q, Adjusted(s.procs[s.current]).queueIndex, s.current);
    }
    assert forall p: nat :: p != s.current ==> Queued(q)[p] == if Belongs(s, p) then 1 else 0;
  }

  /** Every queue is what it was without the process switched away from, and that process, if it runs on, is the
      last of the queue for its priority. */
  ghost predicate Rotated(s: State, t: State)
    requires Fine(s)
  {
    var p := s.procs[s.current];
    && |t.queues| == QUEUES
    && forall k :: 0 <= k < QUEUES ==>
         t.queues[k] == Others(s.queues[k], s.current)
                        + if p.status.Running? && k == QueueFor(Priority(p)) then [s.current] else []
  }

  lemma RetiredRotates(s: State)
    requires Inv(s)
    ensures Rotated(s, Retired(s))
  {
    hide Queued, Others;
    assert Belongs(s, s.current) && Queued(s.queues)[s.current] == 1;
    forall k | 0 <= k < QUEUES
      ensures Delete(s.queues, s.current)[k] == Others(s.queues[k], s.current)
    {
      DeleteIsOthers(s.queues, s.current, k);
    }
  }

  /** schedule rotates the queues if it finds another process, or the current one does not run on; otherwise it
      leaves them as they are. Priorities stay. */
  lemma ScheduleRotates(s: State)
    requires Inv(s)
    ensures var t := ScheduleStep(s);
            && (if Pick(s.queues, s.current).None? && s.procs[s.current].status.Running?
                then t.queues == s.queues && t.current == s.current
                else Rotated(s, t))
            && (s.procs[s.current].status.Running? ==>
                  s.current in t.procs && t.procs[s.current].queueIndex == QueueFor(Priority(s.procs[s.current])))
            && forall p :: p in t.procs ==> p in s.procs && Priority(t.procs[p]) == Priority(s.procs[p])
  {
    hide Queued, Others, Pick;
    RetiredRotates(s);
  }

  /** The process chosen from the queues is running. */
  lemma PickRuns(s: State)
    requires Inv(s) && Pick(s.queues, s.current).Some?
    ensures var next := Pick(s.queues, s.current).value;
            next != s.current && next != 0 && next in s.procs && s.procs[next].status.Running?
  {
    hide Queued;
    var i, j := PickLowest(s.queues, s.current);
    QueuedHas(s.queues, i, j);
    assert Belongs(s, s.queues[i][j]);
  }

  ghost predicate CanFallBack(s: State)
    requires Fine(s)
  {
    || Pick(s.queues, s.current).Some?
    || s.procs[s.current].status.Running?
    || s.procs[0].status.Running?
  }

  /** schedule keeps the queues exact, and runs a running process, if and only if there is another process
      to take, or the current one goes on, or process 0 is running. */
  lemma ScheduleExact(s: State)
    requires Inv(s)
    ensures Exact(ScheduleStep(s)) <==> CanFallBack(s)
    ensures CanFallBack(s) ==> Inv(ScheduleStep(s))
    ensures CanFallBack(s) ==> ScheduleStep(s).procs[ScheduleStep(s).current].status.Running?
  {
    hide Queued;
    var t := ScheduleStep(s);
    RetiredQueues(s);
    if Pick(s.queues, s.current).Some? {
      PickRuns(s);
    } else if s.procs[s.current].status.Running? {
      assert forall p: nat :: Belongs(t, p) <==> Belongs(s, p);
    } else {
      assert Belongs(t, 0);
      assert Queued(t.queues)[0] == if s.procs[0].status.Running? then 1 else 0;
    }
  }

  // ------------------------------------------------------------ runs

  datatype Event =
    | Sleep(time: Time) | Awake(pid: nat, time: Time) | Fork | Exit | Tick | Expire(pid: nat) | Schedule

  /** Sleep, fork and exit are calls of the running process, and process 0 does not exit; wake-ups and the
      end of a timed sleep may hit any process there is. */
  ghost predicate Admitted(s: State, e: Event)
    requires Fine(s)
  {
    match e
    case Sleep(_) => s.procs[s.current].status.Running?
    case Awake(pid, _) => pid in s.procs
    case Fork => s.procs[s.current].status.Running?
    case Exit => s.procs[s.current].status.Running? && s.current != 0
    case Tick => true
    case Expire(pid) => pid in s.procs
    case Schedule => true
  }

  /** The two events that can go wrong find what they need: a timed sleep ends for a process that sleeps
      off the processor, and schedule has something to run. */
  ghost predicate Harmless(s: State, e: Event)
    requires Fine(s) && Admitted(s, e)
  {
    match e
    case Expire(pid) => s.procs[pid].status.Sleeping? && pid != s.current
    case Schedule => CanFallBack(s)
    case _ => true
  }

  /** Events of a kernel whose process 0 idles and whose timed sleeps are not ended twice. */
  ghost predicate Enabled(s: State, e: Event)
    requires Fine(s)
  {
    && Admitted(s, e)
    && (e.Sleep? ==> s.current != 0)
    && (e.Expire? ==> s.procs[e.pid].status.Sleeping? && e.pid != s.current)
  }

  function Next(s: State, e: Event): State
    requires Fine(s) && Admitted(s, e)
  {
    match e
    case Sleep(time) => SleepStep(s, time)
    case Awake(pid, time) => AwakeStep(s, pid, time)
    case Fork => ForkStep(s)
    case Exit => ExitStep(s)
    case Tick => TickStep(s)
    case Expire(pid) => ExpireStep(s, pid)
    case Schedule => ScheduleStep(s)
  }

  /** kmain: process 0 alone, current and on the last queue. */
  function Boot(): State {
    State(seq(QUEUES, i => if i == 9 then [0] else []), map[0 := Process(Running, 0, 0, 9)], 0, 1)
  }

  lemma BootInv()
    ensures Inv(Boot()) && Boot().procs[0].status.Running?
  {
    hide Queued;
    BootQueued();
  }

  lemma BootQueued()
    ensures Queued(Boot().queues) == multiset{0}
  {
    hide Queued;
    var none: seq<seq<nat>> := seq(QUEUES, i => []);
    NoneQueued(none);
    QueuedUpdate(none, 9, [0], 0);
    assert Boot().queues == none[9 := [0]];
  }

  lemma {:induction false} NoneQueued(q: seq<seq<nat>>)
    requires forall i :: 0 <= i < |q| ==> q[i] == []
    ensures Queued(q) == multiset{}
    decreases |q|
  {
    if q != [] {
      assert forall i :: 0 <= i < |q[1..]| ==> q[1..][i] == q[i + 1];
      NoneQueued(q[1..]);
    }
  }

  /** An event keeps the queues exact if and only if it is harmless. */
  lemma StepExact(s: State, e: Event)
    requires Inv(s) && Admitted(s, e)
    ensures Exact(Next(s, e)) <==> Harmless(s, e)
    ensures Harmless(s, e) ==> Inv(Next(s, e))
  {
    hide Exact;
    match e
    case Sleep(time) => SleepExact(s, time);
    case Awake(pid, time) => AwakeExact(s, pid, time);
    case Fork => ForkExact(s);
    case Exit => ExitExact(s);
    case Tick => TickExact(s);
    case Expire(pid) => ExpireExact(s, pid);
    case Schedule => ScheduleExact(s);
  }

  /** The states of a run, one more than its events. */
  ghost predicate Trace(ss: seq<State>, es: seq<Event>) {
    && |ss| == |es| + 1
    && (forall n :: 0 <= n < |es| ==> Follows(ss[n], es[n], ss[n + 1]))
  }

  ghost predicate Follows(s: State, e: Event, t: State) {
    Fine(s) && Admitted(s, e) && t == Next(s, e)
  }

  lemma TraceAt(ss: seq<State>, es: seq<Event>, n: nat)
    requires Trace(ss, es) && n < |es|
    ensures Fine(ss[n]) && Admitted(ss[n], es[n]) && ss[n + 1] == Next(ss[n], es[n])
  {
    assert Follows(ss[n], es[n], ss[n + 1]);
  }

  /** A run keeps the queues exact throughout if and only if each of its events is harmless. */
  lemma TraceExact(ss: seq<State>, es: seq<Event>)
    requires Trace(ss, es) && Inv(ss[0])
    ensures (forall n :: 0 <= n < |ss| ==> Exact(ss[n])) <==>
            (forall n :: 0 <= n < |es| ==> Fine(ss[n]) && Admitted(ss[n], es[n]) && Harmless(ss[n], es[n]))
  {
    hide Exact, Harmless;
    if forall n :: 0 <= n < |ss| ==> Exact(ss[n]) {
      forall n | 0 <= n < |es|
        ensures Fine(ss[n]) && Admitted(ss[n], es[n]) && Harmless(ss[n], es[n])
      {
        ExactSoFar(ss, es, n);
        TraceAt(ss, es, n);
        StepExact(ss[n], es[n]);
        assert Exact(ss[n + 1]);
      }
    }
    if forall n :: 0 <= n < |es| ==> Fine(ss[n]) && Admitted(ss[n], es[n]) && Harmless(ss[n], es[n]) {
      forall n | 0 <= n < |ss|
        ensures Exact(ss[n])
      {
        HarmlessSoFar(ss, es, n);
      }
    }
  }

  lemma {:induction false} ExactSoFar(ss: seq<State>, es: seq<Event>, n: nat)
    requires Trace(ss, es) && Inv(ss[0]) && n < |ss| && forall k :: 0 <= k < |ss| ==> Exact(ss[k])
    ensures Inv(ss[n])
    decreases n
  {
    hide Exact, Harmless;
    if n > 0 {
      ExactSoFar(ss, es, n - 1);
      TraceAt(ss, es, n - 1);
      StepExact(ss[n - 1], es[n - 1]);
    }
  }

  lemma {:induction false} HarmlessSoFar(ss: seq<State>, es: seq<Event>, n: nat)
    requires Trace(ss, es) && Inv(ss[0]) && n < |ss|
    requires forall k :: 0 <= k < |es| ==> Fine(ss[k]) && Admitted(ss[k], es[k]) && Harmless(ss[k], es[k])
    ensures Inv(ss[n])
    decreases n
  {
    hide Exact, Harmless;
    if n > 0 {
      HarmlessSoFar(ss, es, n - 1);
      TraceAt(ss, es, n - 1);
      StepExact(ss[n - 1], es[n - 1]);
    }
  }

  lemma StepInv(s: State, e: Event)
    requires Inv(s) && s.procs[0].status.Running? && Enabled(s, e)
    ensures Inv(Next(s, e)) && Next(s, e).procs[0].status.Running?
  {
    hide Exact;
    StepExact(s, e);
    if e.Schedule? { RetiredQueues(s); }
  }

  /** Some interleaving of events leads from one state to the other. */
  ghost predicate Leads(s: State, es: seq<Event>, t: State)
    decreases |es|
  {
    if es == [] then s == t else Fine(s) && Enabled(s, es[0]) && Leads(Next(s, es[0]), es[1..], t)
  }

  /** Over every run from boot the queues are exact, and whenever schedule has just run the current
      process is a running one. */
  lemma {:induction false} RunExact(s: State, es: seq<Event>, t: State)
    requires Inv(s) && s.procs[0].status.Running? && Leads(s, es, t)
    ensures Inv(t) && t.procs[0].status.Running?
    ensures es != [] && es[|es| - 1].Schedule? ==> t.procs[t.current].status.Running?
    decreases |es|
  {
    if es != [] {
      StepInv(s, es[0]);
      RunExact(Next(s, es[0]), es[1..], t);
      if |es| == 1 && es[0].Schedule? {
        ScheduleExact(s);
      }
    }
  }

  lemma FromBoot(es: seq<Event>, t: State)
    requires Leads(Boot(), es, t)
    ensures Inv(t)
    ensures forall p: nat :: Queued(t.queues)[p] == if Belongs(t, p) then 1 else 0
  {
    BootInv();
    RunExact(Boot(), es, t);
  }

  /** A process that was woken before its timed sleep ends is queued a second time when the sleep does end:
      the child of process 0 goes to sleep, is woken, and then its time is up. */
  lemma ExpireBreaks(asleep: Time, woken: Time) returns (s: State)
    ensures Leads(Boot(), [Fork, Schedule, Sleep(asleep), Schedule, Awake(1, woken)], s)
    ensures Inv(s) && 1 in s.procs && s.current != 1 && s.procs[1].status.Running?
    ensures !Exact(ExpireStep(s, 1)) && Queued(ExpireStep(s, 1).queues)[1] == 2
  {
    hide Leads, Queued, Exact, Next;
    var s0 := ChildScheduled();
    s := SleeperWoken([Fork, Schedule], s0, asleep, woken);
    assert [Fork, Schedule] + [Sleep(asleep)] + [Schedule] + [Awake(1, woken)]
        == [Fork, Schedule, Sleep(asleep), Schedule, Awake(1, woken)];
    ExpireTwice(s, 1);
  }

  /** Process 1 goes to sleep, is switched out, and is woken. */
  lemma SleeperWoken(es: seq<Event>, s0: State, asleep: Time, woken: Time) returns (s: State)
    requires Leads(Boot(), es, s0) && Inv(s0) && s0.current == 1 && s0.procs.Keys == {0, 1}
    requires s0.procs[0].status.Running? && s0.procs[1].status.Running?
    ensures Leads(Boot(), es + [Sleep(asleep)] + [Schedule] + [Awake(1, woken)], s)
    ensures Inv(s) && 1 in s.procs && s.current != 1 && s.procs[1].status.Running?
  {
    hide Leads, Queued, Exact;
    var s1 := Next(s0, Sleep(asleep));
    StepInv(s0, Sleep(asleep));
    var s2 := Next(s1, Schedule);
    StepInv(s1, Schedule);
    RetiredQueues(s1);
    ScheduleExact(s1);
    s := Next(s2, Awake(1, woken));
    StepInv(s2, Awake(1, woken));
    LeadsMore(Boot(), es, s0, Sleep(asleep));
    LeadsMore(Boot(), es + [Sleep(asleep)], s1, Schedule);
    LeadsMore(Boot(), es + [Sleep(asleep)] + [Schedule], s2, Awake(1, woken));
  }

  lemma ExpireTwice(s: State, p: nat)
    requires Inv(s) && p in s.procs && s.procs[p].status.Running?
    ensures !Exact(ExpireStep(s, p)) && Queued(ExpireStep(s, p).queues)[p] == 2
  {
    hide Queued, Exact;
    ExpireExact(s, p);
    QueuedAdd(s.queues, ExpireStep(s, p).procs[p].queueIndex, p);
    OnceQueued(s, p);
  }

  lemma OnceQueued(s: State, p: nat)
    requires Exact(s) && Belongs(s, p)
    ensures Queued(s.queues)[p] == 1
  {
  }

  /** After the first fork and the first switch process 1 is current. */
  lemma ChildScheduled() returns (s: State)
    ensures Leads(Boot(), [Fork, Schedule], s) && Inv(s) && s.current == 1
    ensures s.procs.Keys == {0, 1} && s.procs[0].status.Running? && s.procs[1].status.Running?
  {
    hide Queued, Exact, Pick, Delete;
    BootInv();
    var s0 := Next(Boot(), Fork);
    StepInv(Boot(), Fork);
    s := Next(s0, Schedule);
    StepInv(s0, Schedule);
    OnceQueued(s0, 1);
    var i, j := QueuedWhere(s0.queues, 1);
    var a, b := PickLowest(s0.queues, s0.current);
    assert Pick(s0.queues, s0.current).Some? by {
      if Pick(s0.queues, s0.current).None? { assert Eligible(s0.queues[i][j], s0.current); }
    }
    PickRuns(s0);
    RetiredQueues(s0);
    LeadsMore(Boot(), [], Boot(), Fork);
    assert [] + [Fork] == [Fork];
    LeadsMore(Boot(), [Fork], s0, Schedule);
  }

  lemma {:induction false} QueuedWhere(q: seq<seq<nat>>, p: nat) returns (i: nat, j: nat)
    requires Queued(q)[p] > 0
    ensures i < |q| && j < |q[i]| && q[i][j] == p
    decreases |q|
  {
    if p in q[0] {
      i := 0;
      j :| 0 <= j < |q[0]| && q[0][j] == p;
    } else {
      var k, l := QueuedWhere(q[1..], p);
      i, j := k + 1, l;
    }
  }

  lemma {:induction false} LeadsMore(s: State, es: seq<Event>, t: State, e: Event)
    requires Leads(s, es, t) && Fine(t) && Enabled(t, e)
    ensures Leads(s, es + [e], Next(t, e))
    decreases |es|
  {
    hide Next;
    if es == [] {
      assert ([] + [e])[1..] == [];
    } else {
      LeadsMore(Next(s, es[0]), es[1..], t, e);
      assert (es + [e])[1..] == es[1..] + [e];
    }
  }

  /** Process 0 of this kernel never sleeps. If it did, with nothing else to run, schedule would
      leave it current and unqueued. */
  lemma IdleSleepBreaks(time: Time)
    ensures var s := SleepStep(Boot(), time);
            Inv(s) && !CanFallBack(s) && !Exact(ScheduleStep(s)) && Queued(ScheduleStep(s).queues)[0] == 0
  {
    var s := SleepStep(Boot(), time);
    BootInv();
    SleepExact(Boot(), time);
    var i, j := PickLowest(s.queues, 0);
    if Pick(s.queues, 0).Some? {
      assert false;
    }
    ScheduleExact(s);
    RetiredQueues(s);
  }

  // ------------------------------------------------------------ the code

  class Scheduler {
    var queues: seq<seq<nat>>
    var procs: map<nat, Process>
    var current: nat
    var nextPid: nat

    ghost function Abs(): State
      reads this
    {
      State(queues, procs, current, nextPid)
    }

    constructor ()
      ensures Abs() == Boot() && Inv(Abs())
    {
      queues := seq(QUEUES, i => if i == 9 then [0] else []);
      procs := map[0 := Process(Running, 0, 0, 9)];
      current, nextPid := 0, 1;
      new;
      BootInv();
    }

    method AdjustQueue(pid: nat)
      requires pid in procs && 0 <= Priority(procs[pid]) <= 1000
      modifies this`procs
      ensures procs == old(procs)[pid := Adjusted(old(procs[pid]))]
    {
      var priority := procs[pid].sleepTime + procs[pid].staticPriority * 10;
      procs := procs[pid := procs[pid].(queueIndex := QueueFor(priority))];
    }

    method Sleep(time: Time)
      requires Inv(Abs())
      modifies this
      ensures Abs() == SleepStep(old(Abs()), time) && Inv(Abs())
    {
      SleepExact(Abs(), time);
      procs := procs[current := procs[current].(sleepTime := Stamp(time))];
      procs := procs[current := procs[current].(status := Sleeping)];
    }

    method Awake(pid: nat, time: Time)
      requires Inv(Abs()) && pid in procs
      modifies this
      ensures Abs() == AwakeStep(old(Abs()), pid, time) && Inv(Abs())
    {
      AwakeExact(Abs(), pid, time);
      procs := procs[pid := procs[pid].(sleepTime := Slept(time, procs[pid].sleepTime))];
      AdjustQueue(pid);
      if current != pid && procs[pid].status == Sleeping {
        queues := Prepend(queues, procs[pid].queueIndex, pid);
      }
      procs := procs[pid := procs[pid].(status := Running)];
    }

    method Fork() returns (child: nat)
      requires Inv(Abs()) && procs[current].status.Running?
      modifies this
      ensures Abs() == ForkStep(old(Abs())) && Inv(Abs())
      ensures child == old(nextPid) && child !in old(procs)
    {
      ForkExact(Abs());
      child := nextPid;
      nextPid := nextPid + 1;
      procs := procs[child := procs[current]];
      queues := Prepend(queues, procs[current].queueIndex, child);
    }

    method Exit()
      requires Inv(Abs()) && current != 0
      modifies this
      ensures Abs() == ExitStep(old(Abs())) && Inv(Abs())
    {
      ExitExact(Abs());
      procs := procs[current := procs[current].(status := Exiting)];
    }

    /** The two nested loops of schedule stop at the first eligible process. */
    method Find() returns (next: Option<nat>)
      ensures next == Pick(queues, current)
    {
      var index := 0;
      next := None;
      assert queues[0..] == queues;
      while index < |queues| && next.None?
        invariant 0 <= index <= |queues|
        invariant next.Some? ==> next == Pick(queues, current)
        invariant next.None? ==> Pick(queues, current) == Pick(queues[index..], current)
      {
        var l := queues[index];
        assert queues[index..][0] == l && queues[index..][1..] == queues[index + 1..];
        var j := 0;
        assert l[0..] == l;
        while j < |l| && next.None?
          invariant 0 <= j <= |l|
          invariant next.Some? ==> next == PickIn(l, current)
          invariant next.None? ==> PickIn(l, current) == PickIn(l[j..], current)
          decreases |l| - j, next.None?
        {
          if Eligible(l[j], current) {
            next := Some(l[j]);
          } else {
            assert l[j..][1..] == l[j + 1..];
            j := j + 1;
          }
        }
        index := index + 1;
      }
    }

    method Schedule()
      requires Inv(Abs())
      modifies this
      ensures Abs() == ScheduleStep(old(Abs()))
      ensures old(CanFallBack(Abs())) ==> Inv(Abs()) && procs[current].status.Running?
      ensures current != old(current) || !old(procs[current]).status.Running? ==> Rotated(old(Abs()), Abs())
    {
      ScheduleExact(Abs());
      ScheduleRotates(Abs());
      if Pick(queues, current).Some? { PickRuns(Abs()); }
      var next := Find();
      var was := current;
      var status := procs[was].status;
      if next.Some? {
        current := next.value;
        Retire(was);
      } else if status == Running {
        AdjustQueue(was);
      } else {
        current := 0;
        Retire(was);
      }
    }

    method Retire(was: nat)
      requires Fine(Abs().(current := was))
      modifies this`queues, this`procs
      ensures Abs() == Retired(old(Abs()).(current := was)).(current := current)
    {
      var status := procs[was].status;
      if status == Running {
        AdjustQueue(was);
        queues := Delete(queues, was);
        queues := Append(queues, procs[was].queueIndex, was);
      } else if status == Sleeping {
        queues := Delete(queues, was);
      } else {
        procs := procs - {was};
        queues := Delete(queues, was);
      }
    }
  }
}
