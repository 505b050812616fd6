/** Runs in which the scheduler as written goes wrong (proc.c, asmbridge.S). */
module SchedulerFailures {
  import opened TaskQueues
  import opened Scheduler

  lemma KeepTwo(a: Ptr, b: Ptr, s: set<Ptr>)
    ensures Keep([a, b], s) == (if a in s then [a] else []) + (if b in s then [b] else [])
    ensures KeepBackwards([a, b], s) == (if b in s then [b] else []) + (if a in s then [a] else [])
    ensures Keep([], s) == [] && KeepBackwards([], s) == []
  {
    assert [a, b][..1] == [a] && [a][..0] == [];
    assert Keep([a], s) == if a in s then [a] else [];
    assert KeepBackwards([a], s) == if a in s then [a] else [];
  }

  /** The running task sleeps; the first ready task is next, or the processor idles. */
  method SleepUntil(s: Scheduler, t: nat)
    requires s.Valid() && s.Running() && t >= s.time
    modifies s
    ensures s.Valid() && s.time == old(s.time) && s.at.irqs == old(s.at.irqs)
    ensures s.at.asleep == [old(s.current)] + old(s.at.asleep)
    ensures old(s.at.ready) != [] ==>
              s.Running() && s.current == old(s.at.ready)[0] && s.at.ready == old(s.at.ready)[1..]
    ensures old(s.at.ready) == [] ==> s.current == 0 && s.idler == old(s.current) && s.at.ready == []
    ensures s.mem.Keys == old(s.mem.Keys) && old(s.current) in s.mem && s.mem[old(s.current)].ttn == t
    ensures forall x | x in s.mem && x != old(s.current) :: s.mem[x].ttn == old(s.mem)[x].ttn
  {
    s.NanoSleepUntil(t);
  }

  /** A tick on an idle processor with two sleepers: both are ready in order, or both go back in reverse order. */
  method IdleTick(s: Scheduler, ghost a: Ptr, ghost b: Ptr, ghost t: nat)
    requires s.Valid() && s.current == 0 && s.at.asleep == [a, b] && s.at.ready == [] && s.at.irqs == []
    requires a in s.mem && b in s.mem && s.mem[a].ttn == s.mem[b].ttn == t
    modifies s
    ensures s.Valid() && s.current == 0 && s.idler == old(s.idler) && s.time == old(s.time) + TICK && s.at.irqs == []
    ensures a in s.mem && b in s.mem && s.mem[a].ttn == s.mem[b].ttn == t
    ensures t <= s.time ==> s.at.ready == [a, b] && s.at.asleep == []
    ensures t > s.time ==> s.at.ready == [] && s.at.asleep == [b, a]
  {
    ghost var now := s.time + TICK;
    KeepTwo(a, b, Due(s.mem, now));
    KeepTwo(a, b, Later(s.mem, now));
    KeepNone(TimedOut(s.mem, now), Patient(s.mem, now));
    ghost var v;
    var f;
    NoOneIdle(s);
    f, v := s.PIT_IRQ_handler();
  }

  lemma KeepNone(wake: set<Ptr>, stay: set<Ptr>)
    ensures Keep([], wake) == [] && KeepBackwards([], stay) == []
  {
  }

  lemma NoOneIdle(s: Scheduler)
    requires s.Valid() && s.current == 0
    ensures !s.Running() && s.slice == 0
  {
    ReadyEnds(s.mem, s.sems, s.H(), s.current, s.at, {});
  }

  /**
   * Two tasks sleep until the same time. The list of sleepers is turned around by the first tick, so that the second
   * one readies the task that is in the idle loop behind the other one: `schedule` ends with an error.
   */
  method ResumeFails() returns (s: Scheduler, f: Fault)
    ensures f == SHOULD_NOT_BE_READY2
  {
    s := new Scheduler(1);
    s.Spawn(2);
    assert s.at.ready == [2];
    SleepUntil(s, 2 * TICK);
    SleepUntil(s, 2 * TICK);
    assert s.current == 0 && s.idler == 2 && s.at.asleep == [2, 1];
    IdleTick(s, 2, 1, 2 * TICK);
    IdleTick(s, 1, 2, 2 * TICK);
    assert s.at.ready == [1, 2];
    ExactlyOnePlace(s.mem, s.sems, s.H(), s.current, s.at, 2);
    f := s.Resume();
  }

  method ThreeTasks() returns (s: Scheduler)
    ensures fresh(s) && s.Valid() && s.Running() && s.current == 1 && s.at.ready == [2, 3]
    ensures s.at.asleep == s.at.irqs == [] && s.time == 0 && s.mem.Keys == {1, 2, 3}
  {
    s := new Scheduler(1);
    s.Spawn(2);
    s.Spawn(3);
    assert s.at.ready == [2, 3];
  }

  /** Three tasks, of which the first two sleep, and a fourth that is ready. */
  method TwoAsleep() returns (s: Scheduler)
    ensures fresh(s) && s.Valid() && s.Running() && s.at.ready == [4] && s.at.asleep == [2, 1] && s.at.irqs == []
    ensures s.time == 0 && 2 in s.mem && s.mem[2].ttn == TICK
  {
    s := ThreeTasks();
    SleepUntil(s, 2 * TICK);
    SleepUntil(s, TICK);
    s.Spawn(4);
    assert s.at.ready == [4];
  }

  /**
   * A sleeper that is not the last of its list wakes while another task is ready: as written, `unblock_task` makes
   * the other sleeper a part of the ready queue.
   */
  method UnblockFails() returns (s: Scheduler)
    ensures !Placeable(s.mem, s.sems, s.H(), s.current, {1})
  {
    s := TwoAsleep();
    // The tick takes the list apart and finds that the time of the first sleeper has come.
    s.time := s.time + TICK;
    var x := DetachFirst(s, 2, 1);
    assert s.mem[x].ttn <= s.time && {2, 1} - {2} == {1};
    s.AppendReadyAsWritten(x, {2, 1});
  }

  /** The beginning of the loop over the sleepers `a` and `b`. */
  method DetachFirst(s: Scheduler, ghost a: Ptr, ghost b: Ptr) returns (x: Ptr)
    requires s.Inv({}) && s.at.asleep == [a, b] && s.at.ready != []
    modifies s`sleeping, s`at
    ensures x == a && x in s.mem && s.Inv({a, b}) && s.mem[x].next == b != 0 && s.first != 0
  {
    ReadyEnds(s.mem, s.sems, s.H(), s.current, s.at, {});
    SleepersOut(s.mem, s.sems, s.H(), s.current, s.at);
    FirstOfTwo(s.mem, s.at.asleep, s.sleeping, a, b);
    x := s.sleeping;
    s.sleeping := 0;
    s.at := s.at.(asleep := []);
  }

  lemma FirstOfTwo(m: Tasks, q: seq<Ptr>, head: Ptr, a: Ptr, b: Ptr)
    requires Queue(m, q, head, WAITING) && q == [a, b]
    ensures head == a && a in m && m[a].next == b != 0 && Rest(q, 0) == {a, b}
  {
    assert Member(m, q[0], At(q, 1), WAITING) && Member(m, q[1], At(q, 2), WAITING);
    assert q[0] == a && q[1] == b;
  }

  /** The running task gives way to the only ready one: as written, `switch_to_task` loses it. */
  method SwitchFails() returns (s: Scheduler)
    ensures !Placeable(s.mem, s.sems, s.H(), s.current, {})
  {
    s := new Scheduler(1);
    s.Spawn(2);
    var x := s.PopReady();
    ReadyEnds(s.mem, s.sems, s.H(), s.current, s.at, {x});
    s.SwitchToAsWritten(x);
  }
}
