/** How long a running task keeps the processor while others are ready (proc.c). */
module SchedulerRuns {
  import opened TaskQueues
  import opened Scheduler

  /** Why a run of steps ended: the tick took the processor away, the task gave it up, or neither. */
  datatype End = Preempted | Blocked | StillRunning

  /** The steps by which a running task may wait for something. */
  predicate MayBlock(e: Event) {
    e.Sleep? || e.Await? || e.Acquire?
  }

  function Ticks(events: seq<Event>): nat {
    if events == [] then 0 else Ticks(events[..|events| - 1]) + if events[|events| - 1].Tick? then 1 else 0
  }

  /** What one tick, or none, leaves of a time slice that is not used up by it. */
  function Left(slice: nat, e: Event): int {
    if e.Tick? && slice != 0 then slice - TICK else slice
  }

  /** The first ready task is not the one that runs. */
  lemma ReadyIsOther(s: Scheduler)
    requires s.Valid() && s.Running() && s.at.ready != []
    ensures s.at.ready[0] != s.current && s.at.ready[0] != 0 && s.current != 0
  {
    ReadyEnds(s.mem, s.sems, s.H(), s.current, s.at, {});
    assert Member(s.mem, s.at.ready[0], At(s.at.ready, 1), READY);
  }

  lemma AsleepKnown(s: Scheduler)
    requires s.Valid()
    ensures forall x | x in s.at.asleep || x in s.at.irqs :: x in s.mem
  {
    forall i | 0 <= i < |s.at.asleep|
      ensures s.at.asleep[i] in s.mem
    {
      assert Member(s.mem, s.at.asleep[i], At(s.at.asleep, i + 1), WAITING);
    }
    forall i | 0 <= i < |s.at.irqs|
      ensures s.at.irqs[i] in s.mem
    {
      assert Member(s.mem, s.at.irqs[i], At(s.at.irqs, i + 1), WAITING_FOR_IRQ);
    }
  }

  lemma CurrentRuns(s: Scheduler)
    requires s.Valid()
    ensures s.current != 0 <==> s.Running()
  {
    ReadyEnds(s.mem, s.sems, s.H(), s.current, s.at, {});
  }

  /** One step while a task runs and another one is ready. */
  method One(s: Scheduler, e: Event) returns (f: Fault, end: End)
    requires s.Valid() && s.Running() && s.at.ready != []
    modifies s
    ensures f == NoFault || (e.Tick? && f == TFNTTNNZ)
    ensures f == NoFault ==> s.Valid() && s.Running()
    ensures f == NoFault && end != StillRunning ==> s.current == old(s.at.ready)[0]
    ensures f == NoFault && end == Preempted ==> e.Tick? && 0 < old(s.slice) <= TICK && s.slice == SLICE
    ensures f == NoFault && end == Blocked ==> MayBlock(e)
    ensures f == NoFault && end == StillRunning ==>
              s.current == old(s.current) && old(s.at.ready) <= s.at.ready && s.slice == Left(old(s.slice), e)
    ensures f == NoFault && end == StillRunning ==> (e.Tick? && old(s.slice) > 0 ==> old(s.slice) > TICK)
    ensures f == NoFault && end == StillRunning && old(s.at.irqs) == [] ==> s.at.irqs == []
    ensures old(s.at.irqs) == [] ==> f == NoFault
  {
    ReadyIsOther(s);
    if e.Tick? {
      f, end := OneTick(s);
    } else {
      end := OneOther(s, e);
      f := NoFault;
    }
  }

  method OneTick(s: Scheduler) returns (f: Fault, end: End)
    requires s.Valid() && s.Running() && s.at.ready != [] && s.at.ready[0] != s.current && s.at.ready[0] != 0
    modifies s
    ensures f == NoFault || f == TFNTTNNZ
    ensures f == NoFault ==> s.Valid() && s.Running()
    ensures f == NoFault ==> end == if 0 < old(s.slice) <= TICK then Preempted else StillRunning
    ensures f == NoFault && end == Preempted ==> s.current == old(s.at.ready)[0] && s.slice == SLICE
    ensures f == NoFault && end == StillRunning ==> s.current == old(s.current) && old(s.at.ready) <= s.at.ready
    ensures f == NoFault && end == StillRunning ==> s.slice == if old(s.slice) == 0 then 0 else old(s.slice) - TICK
    ensures old(s.at.irqs) == [] ==> f == NoFault && (end == StillRunning ==> s.at.irqs == [])
  {
    AsleepKnown(s);
    StepKeeps(s.at, s.mem, s.time + TICK, Tick);
    ghost var v;
    var was := s.current;
    f, v := s.Step(Tick);
    end := if s.current == was then StillRunning else Preempted;
    if f == NoFault {
      CurrentRuns(s);
    }
  }

  method OneOther(s: Scheduler, e: Event) returns (end: End)
    requires s.Valid() && s.Running() && s.at.ready != [] && s.at.ready[0] != s.current && s.at.ready[0] != 0
    requires !e.Tick?
    modifies s
    ensures s.Valid() && s.Running() && end != Preempted
    ensures end == Blocked ==> MayBlock(e) && s.current == old(s.at.ready)[0]
    ensures end == StillRunning ==> s.current == old(s.current) && old(s.at.ready) <= s.at.ready
    ensures end == StillRunning ==> s.slice == old(s.slice)
    ensures end == StillRunning && old(s.at.irqs) == [] ==> s.at.irqs == []
  {
    AsleepKnown(s);
    CurrentRuns(s);
    StepKeeps(s.at, s.mem, s.time, e);
    var was := s.current;
    ghost var v;
    var f;
    f, v := s.Step(e);
    end := if s.current == was then StillRunning else Blocked;
    CurrentRuns(s);
  }

  /** Ticks and interrupts make the ready queue longer and nobody wait for an interrupt. */
  lemma StepKeeps(at: Places, m: Tasks, time: nat, e: Event)
    requires forall x | x in at.asleep || x in at.irqs :: x in m
    ensures at.ready <= Ticked(at, m, time).ready && (at.irqs == [] ==> Ticked(at, m, time).irqs == [])
    ensures e.Irq? ==>
              var at' := IrqsMoved(at, at.irqs, WaitFor(m, e.irq), WaitForOthers(m, e.irq));
              at.ready <= at'.ready && (at.irqs == [] ==> at'.irqs == [])
    ensures at.irqs == [] ==> !NoFunction(m, at.irqs, time)
  {
    TickedMeans(at, m, time);
    if e.Irq? {
      IrqsMean(at, m, e.irq);
    }
  }

  /** The slice after some ticks that did not use it up. */
  function LeftAfter(slice: nat, events: seq<Event>): int {
    if slice == 0 then 0 else slice - Ticks(events) * TICK
  }

  lemma OneMore(events: seq<Event>, i: nat)
    requires i < |events|
    ensures Ticks(events[..i + 1]) == Ticks(events[..i]) + if events[i].Tick? then 1 else 0
  {
    assert events[..i + 1][..i] == events[..i];
  }

  lemma {:induction false} TicksGrow(events: seq<Event>, i: nat)
    requires i <= |events|
    ensures Ticks(events[..i]) <= Ticks(events)
  {
    if i == |events| {
      assert events[..i] == events;
    } else {
      TicksGrow(events[..|events| - 1], i);
      assert events[..|events| - 1][..i] == events[..i];
    }
  }

  /**
   * Any steps while a task runs and another one is ready, up to the one after which it no longer runs, the `n`-th. If
   * the task does not block, the first ready task runs exactly when the ticks so far make up the rest of the time
   * slice; but with no time slice it never does.
   */
  method RunOn(s: Scheduler, events: seq<Event>) returns (f: Fault, end: End, n: nat)
    requires s.Valid() && s.Running() && s.at.ready != []
    modifies s
    ensures n <= |events| && (f == NoFault || f == TFNTTNNZ) && (old(s.at.irqs) == [] ==> f == NoFault)
    ensures f == NoFault ==> s.Valid() && s.Running()
    ensures f == NoFault && end != StillRunning ==> n > 0 && s.current == old(s.at.ready)[0]
    ensures f == NoFault && end == StillRunning ==>
              n == |events| && s.current == old(s.current) && old(s.at.ready) <= s.at.ready
    ensures f == NoFault && end == Blocked ==> MayBlock(events[n - 1])
    ensures f == NoFault && end != Blocked ==>
              (end == Preempted <==> old(s.slice) > 0 && Ticks(events) * TICK >= old(s.slice))
    ensures f == NoFault && end == Preempted ==>
              (Ticks(events[..n]) - 1) * TICK < old(s.slice) <= Ticks(events[..n]) * TICK && s.slice == SLICE
    ensures f == NoFault && end == StillRunning ==> s.slice == LeftAfter(old(s.slice), events)
  {
    f, end, n := NoFault, StillRunning, 0;
    while end == StillRunning && n < |events|
      invariant n <= |events| && f == NoFault && s.Valid() && s.Running()
      invariant end == StillRunning ==> s.current == old(s.current) && old(s.at.ready) <= s.at.ready
      invariant end == StillRunning && old(s.at.irqs) == [] ==> s.at.irqs == []
      invariant end == StillRunning ==> s.slice == LeftAfter(old(s.slice), events[..n])
      invariant end == StillRunning && old(s.slice) > 0 ==> s.slice > 0
      invariant end != StillRunning ==> n > 0 && s.current == old(s.at.ready)[0]
      invariant end == Blocked ==> MayBlock(events[n - 1])
      invariant end == Preempted ==> old(s.slice) > 0 && s.slice == SLICE
      invariant end == Preempted ==>
                  (Ticks(events[..n]) - 1) * TICK < old(s.slice) <= Ticks(events[..n]) * TICK
      decreases end == StillRunning, |events| - n
    {
      OneMore(events, n);
      f, end := One(s, events[n]);
      n := n + 1;
      if f != NoFault {
        return;
      }
    }
    TicksGrow(events, n);
    assert n == |events| ==> events[..n] == events;
  }

  lemma {:induction false} AllTicks(events: seq<Event>)
    requires forall i | 0 <= i < |events| :: events[i] == Tick
    ensures Ticks(events) == |events|
  {
    if events != [] {
      AllTicks(events[..|events| - 1]);
    }
  }

  /** A task that gets a whole slice and does not block keeps the processor for five ticks. */
  method FiveTicks(events: seq<Event>) returns (s: Scheduler, n: nat)
    requires |events| >= 5 && forall i | 0 <= i < |events| :: events[i] == Tick
    ensures fresh(s) && s.Valid() && n == 5 && s.current == 2 && s.slice == SLICE
  {
    s := TwoTasks();
    var f, end;
    f, end, n := RunOn(s, events);
    AllTicks(events);
    AllTicks(events[..n]);
  }

  method TwoTasks() returns (s: Scheduler)
    ensures fresh(s) && s.Valid() && s.Running() && s.current == 1 && s.slice == SLICE && s.time == 0
    ensures s.at.ready == [2] && s.at.asleep == s.at.irqs == []
  {
    s := new Scheduler(1);
    s.Spawn(2);
    assert s.at.ready == [2];
  }

  /** A task that gets no slice, because it is the last ready one when another one blocks. */
  method NoSlice() returns (s: Scheduler)
    ensures fresh(s) && s.Valid() && s.Running() && s.current == 2 && s.slice == 0
    ensures s.at.asleep == [1] && s.at.ready == s.at.irqs == [] && 1 in s.mem && s.mem[1].ttn == 0 && s.time == 0
  {
    s := TwoTasks();
    s.NanoSleepUntil(0);
    CurrentRuns(s);
  }

  /** The sleeper wakes at the next tick, but however many follow it never runs. */
  method Starves(events: seq<Event>) returns (s: Scheduler)
    requires forall i | 0 <= i < |events| :: events[i] == Tick
    ensures fresh(s) && s.Valid() && s.current == 2 && 1 in s.at.ready
  {
    s := NoSlice();
    WakesFirst(s);
    var f, end, n;
    f, end, n := RunOn(s, events);
  }

  method WakesFirst(s: Scheduler)
    requires s.Valid() && s.Running() && s.current == 2 && s.slice == 0 && s.time == 0
    requires s.at.asleep == [1] && s.at.ready == s.at.irqs == [] && 1 in s.mem && s.mem[1].ttn == 0
    modifies s
    ensures s.Valid() && s.Running() && s.current == 2 && s.slice == 0 && s.at.ready != [] && s.at.irqs == []
    ensures 1 in s.at.ready
  {
    AsleepKnown(s);
    TickedMeans(s.at, s.mem, TICK);
    StepKeeps(s.at, s.mem, TICK, Tick);
    ghost var v;
    var f;
    f, v := s.Step(Tick);
    CurrentRuns(s);
  }
}
