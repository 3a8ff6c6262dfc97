/** The hand-off semaphore of synchro_types/semaphore.c on top of the scheduler's sleep and wake-up. Only
    sem_up is taken to wake the processes that wait on the semaphore. */
module Semaphores {
  import opened Basics
  import opened Scheduling

  /** One semaphore and the scheduler, with the history of its calls: who asked for a permit, who got one,
      how many were put back, who is inside, and whether only processes inside have called sem_up. */
  datatype World = World(
    sched: State,
    initial: nat,
    count: int,
    waiting: seq<nat>,
    arrivals: seq<nat>,
    grants: seq<nat>,
    ups: nat,
    inside: multiset<nat>,
    disciplined: bool)

  function Start(s: State, count: nat): World {
    World(s, count, count, [], [], [], 0, multiset{}, true)
  }

  function DownStep(w: World, time: Time): World
    requires Fine(w.sched)
  {
    var p := w.sched.current;
    if w.count == 0
    then w.(waiting := w.waiting + [p], arrivals := w.arrivals + [p], sched := SleepStep(w.sched, time))
    else w.(count := w.count - 1, arrivals := w.arrivals + [p], grants := w.grants + [p],
            inside := w.inside + multiset{p})
  }

  function UpStep(w: World, time: Time): World
    requires Fine(w.sched) && (w.waiting != [] ==> w.waiting[0] in w.sched.procs)
  {
    var p := w.sched.current;
    var v := w.(ups := w.ups + 1, inside := w.inside - multiset{p}, disciplined := w.disciplined && p in w.inside);
    if w.waiting != [] then
      var q := w.waiting[0];
      v.(waiting := w.waiting[1..], grants := w.grants + [q], inside := v.inside + multiset{q},
         sched := AwakeStep(w.sched, q, time))
    else v.(count := w.count + 1)
  }

  // ------------------------------------------------------------ the invariant

  ghost predicate Asleep(s: State, p: nat) {
    p in s.procs && s.procs[p].status.Sleeping?
  }

  ghost predicate Idles(s: State) {
    Inv(s) && s.procs[0].status.Running?
  }

  /** The waiting processes are different and asleep. */
  ghost predicate WaitersSleep(w: World) {
    && (forall i :: 0 <= i < |w.waiting| ==> Asleep(w.sched, w.waiting[i]))
    && forall i, j :: 0 <= i < j < |w.waiting| ==> w.waiting[i] != w.waiting[j]
  }

  ghost predicate Permits(w: World) {
    && w.count >= 0
    && (w.count > 0 ==> w.waiting == [])
    && w.count + |w.grants| == w.initial + w.ups
    && w.arrivals == w.grants + w.waiting
    && (w.disciplined ==> w.count + |w.inside| == w.initial)
  }

  ghost predicate Safe(w: World) {
    Idles(w.sched) && WaitersSleep(w) && Permits(w)
  }

  lemma DownSafe(w: World, time: Time)
    requires Safe(w) && w.sched.procs[w.sched.current].status.Running?
    requires w.count == 0 ==> w.sched.current != 0
    ensures Safe(DownStep(w, time))
  {
    if w.count == 0 {
      SleepExact(w.sched, time);
    }
    var v := DownStep(w, time);
    assert v.arrivals == v.grants + v.waiting;
  }

  /** sem_up hands the permit to the process that has waited longest, which then runs and is queued. */
  lemma UpSafe(w: World, time: Time)
    requires Safe(w)
    ensures Safe(UpStep(w, time))
    ensures w.waiting != [] ==>
      var v := UpStep(w, time);
      && v.count == w.count
      && w.waiting[0] !in v.waiting && v.grants == w.grants + [w.waiting[0]]
      && v.sched.procs[w.waiting[0]].status.Running?
      && Queued(v.sched.queues)[w.waiting[0]] == 1
  {
    hide Queued;
    var v := UpStep(w, time);
    if w.waiting != [] {
      var q := w.waiting[0];
      assert Asleep(w.sched, q);
      AwakeExact(w.sched, q, time);
      assert Belongs(v.sched, q);
      assert w.arrivals == v.grants + v.waiting;
      HandedOver(w, v);
    }
  }

  lemma HandedOver(w: World, v: World)
    requires WaitersSleep(w) && w.waiting != [] && v.waiting == w.waiting[1..]
    requires forall p :: p != w.waiting[0] && Asleep(w.sched, p) ==> Asleep(v.sched, p)
    ensures WaitersSleep(v) && w.waiting[0] !in v.waiting
  {
  }

  /** A sleeping process stays asleep until something wakes it. */
  lemma SleepsOn(s: State, e: Event, p: nat)
    requires Fine(s) && Enabled(s, e) && Asleep(s, p)
    requires !(e.Awake? && e.pid == p) && !(e.Expire? && e.pid == p)
    ensures Asleep(Next(s, e), p)
  {
  }

  // ------------------------------------------------------------ runs

  datatype Call = Down(time: Time) | Up(time: Time) | Other(event: Event)

  ghost predicate Possible(w: World, c: Call) {
    && Fine(w.sched)
    && match c
       case Down(_) => w.sched.procs[w.sched.current].status.Running? && (w.count == 0 ==> w.sched.current != 0)
       case Up(_) => w.waiting != [] ==> w.waiting[0] in w.sched.procs
       case Other(e) =>
         && Enabled(w.sched, e)
         && (e.Awake? || e.Expire? ==> e.pid !in w.waiting)
  }

  function After(w: World, c: Call): World
    requires Possible(w, c)
  {
    match c
    case Down(time) => DownStep(w, time)
    case Up(time) => UpStep(w, time)
    case Other(e) => w.(sched := Next(w.sched, e))
  }

  ghost predicate Reaches(w: World, cs: seq<Call>, v: World)
    decreases |cs|
  {
    if cs == [] then w == v else Possible(w, cs[0]) && Reaches(After(w, cs[0]), cs[1..], v)
  }

  lemma CallSafe(w: World, c: Call)
    requires Safe(w) && Possible(w, c)
    ensures Safe(After(w, c)) && After(w, c).initial == w.initial
  {
    hide Inv;
    match c
    case Down(time) => DownSafe(w, time);
    case Up(time) => UpSafe(w, time);
    case Other(e) =>
      StepInv(w.sched, e);
      forall i | 0 <= i < |w.waiting|
        ensures Asleep(Next(w.sched, e), w.waiting[i])
      {
        SleepsOn(w.sched, e, w.waiting[i]);
      }
  }

  lemma {:induction false} RunSafe(w: World, cs: seq<Call>, v: World)
    requires Safe(w) && Reaches(w, cs, v)
    ensures Safe(v) && v.initial == w.initial
    decreases |cs|
  {
    if cs != [] {
      CallSafe(w, cs[0]);
      RunSafe(After(w, cs[0]), cs[1..], v);
    }
  }

  /** Over every run: permits are conserved, a positive count means nobody waits, permits are granted in
      the order of the requests, and a waiting process is on no run queue unless it is still current. */
  lemma Conserved(s: State, initial: nat, cs: seq<Call>, w: World)
    requires Idles(s) && Reaches(Start(s, initial), cs, w)
    ensures w.count >= 0 && w.count + |w.grants| == initial + w.ups
    ensures w.count > 0 ==> w.waiting == []
    ensures w.grants <= w.arrivals && w.arrivals[|w.grants|..] == w.waiting
    ensures forall i :: 0 <= i < |w.waiting| && w.waiting[i] != w.sched.current ==>
      Queued(w.sched.queues)[w.waiting[i]] == 0
  {
    RunSafe(Start(s, initial), cs, w);
    forall i | 0 <= i < |w.waiting| && w.waiting[i] != w.sched.current
      ensures Queued(w.sched.queues)[w.waiting[i]] == 0
    {
      assert Asleep(w.sched, w.waiting[i]) && !Belongs(w.sched, w.waiting[i]);
    }
  }

  /** If only processes inside call sem_up, the count and those inside make up the initial count. */
  lemma Accounted(s: State, initial: nat, cs: seq<Call>, w: World)
    requires Idles(s) && Reaches(Start(s, initial), cs, w) && w.disciplined
    ensures w.count + |w.inside| == initial
  {
    RunSafe(Start(s, initial), cs, w);
  }

  /** A semaphore that starts at one lets at most one process inside. */
  lemma MutualExclusion(s: State, cs: seq<Call>, w: World, p: nat, q: nat)
    requires Idles(s) && Reaches(Start(s, 1), cs, w) && w.disciplined
    requires p in w.inside && q in w.inside
    ensures p == q && w.inside == multiset{p} && w.count == 0
  {
    Accounted(s, 1, cs, w);
    RunSafe(Start(s, 1), cs, w);
    var rest := w.inside - multiset{p};
    assert w.inside == rest + multiset{p};
    assert |rest| == 0;
  }

  // ------------------------------------------------------------ the code

  class Semaphore {
    const sched: Scheduler
    var count: int
    var waitQueue: seq<nat>
    ghost var history: World

    ghost predicate Valid()
      reads this, sched
    {
      && history.sched == sched.Abs() && history.count == count && history.waiting == waitQueue
      && Safe(history)
    }

    constructor (sched: Scheduler, count: nat)
      requires Idles(sched.Abs())
      ensures Valid() && this.sched == sched && history == Start(sched.Abs(), count)
    {
      this.sched, this.count, waitQueue := sched, count, [];
      history := Start(sched.Abs(), count);
    }

    method Down(time: Time)
      requires Valid() && Possible(history, Call.Down(time))
      modifies this, sched
      ensures Valid() && history == After(old(history), Call.Down(time))
    {
      hide Inv;
      CallSafe(history, Call.Down(time));
      history := After(history, Call.Down(time));
      if count == 0 {
        waitQueue := waitQueue + [sched.current];
        sched.Sleep(time);
      } else {
        count := count - 1;
      }
    }

    method Up(time: Time)
      requires Valid()
      modifies this, sched
      ensures Valid() && Possible(old(history), Call.Up(time)) && history == After(old(history), Call.Up(time))
    {
      hide Exact;
      assert waitQueue != [] ==> Asleep(history.sched, waitQueue[0]);
      CallSafe(history, Call.Up(time));
      history := After(history, Call.Up(time));
      if waitQueue != [] {
        var first := waitQueue[0];
        waitQueue := waitQueue[1..];
        sched.Awake(first, time);
      } else {
        count := count + 1;
      }
    }
  }
}
