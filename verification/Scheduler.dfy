/** The scheduler (proc.c, asmbridge.S). */
module Scheduler {
  import opened TaskQueues

  datatype Fault = NoFault | SHOULD_NOT_BE_READY2 | TASK_SHOULD_BE_RUNNING | TASK_BADUNBLOCK | TFNTTNNZ

  datatype Event =
    | Tick | Irq(irq: nat) | Resumed | Sleep(t: nat) | Await(irq: nat, timeout: nat, onTimeout: bool)
    | Create(s: Ptr, max: nat) | Acquire(s: Ptr) | Release(s: Ptr) | Born(x: Ptr)

  const SLICE: nat := 50_000_000
  const TICK: nat := 10_000_000

  /** What the queues do not touch. */
  ghost predicate SameData(m: Tasks, m': Tasks) {
    && m'.Keys == m.Keys
    && forall t | t in m :: m'[t].ttn == m[t].ttn && m'[t].irq == m[t].irq && m'[t].onTimeout == m[t].onTimeout
  }

  function Stored(m: Tasks, x: Ptr, st: State): Tasks
    requires x in m
  {
    m[x := m[x].(state := st)]
  }

  datatype View = View(mem: Tasks, current: Ptr, at: Places)

  predicate Runs(v: View) {
    v.current in v.mem && v.mem[v.current].state == RUNNING
  }

  /** The task after `schedule`: the first ready one, or the current one if it still runs, or none. */
  function NextTask(v: View): Ptr {
    if v.at.ready != [] then v.at.ready[0] else if Runs(v) then v.current else 0
  }

  /** The task in the idle loop after `schedule`: the current one if it goes idle. */
  function NextIdler(v: View, idler: Ptr): Ptr {
    if v.at.ready == [] && !Runs(v) then v.current else idler
  }

  /**
   * The time slice after `schedule`: a whole one for the task that is switched to, but none if it is the last ready one
   * and follows a task that blocked; none while the processor idles.
   */
  function NextSlice(v: View, slice: nat): nat {
    if v.at.ready != [] then (if |v.at.ready| == 1 && !Runs(v) then 0 else SLICE)
    else if Runs(v) then slice
    else 0
  }

  /** The places after `schedule`: a task that still ran went to the end of the ready queue. */
  function NextPlaces(v: View): Places {
    if v.at.ready != [] then
      v.at.(ready := v.at.ready[1..] + if Runs(v) then [v.current] else [])
    else
      v.at
  }

  /** The current task at the front of the sleeping list, until the time `t`. */
  function Asleep(v: View, head: Ptr, t: nat): View
    requires v.current in v.mem
  {
    v.(mem := v.mem[v.current := v.mem[v.current].(ttn := t, next := head, state := WAITING)],
       at := v.at.(asleep := [v.current] + v.at.asleep))
  }

  /** 0 stands for no time-out. */
  function Deadline(time: nat, timeout: nat): nat {
    if timeout == 0 then 0 else time + timeout
  }

  /** The current task at the front of the list of those waiting for interrupts. */
  function AwaitsIrq(v: View, head: Ptr, irq: nat, ttn: nat, onTimeout: bool): View
    requires v.current in v.mem
  {
    v.(mem := v.mem[v.current := Tcb(head, WAITING_FOR_IRQ, ttn, irq, onTimeout)],
       at := v.at.(irqs := [v.current] + v.at.irqs))
  }

  /** There is a way to see every task but those set apart in exactly one place. */
  ghost predicate Placeable(m: Tasks, sems: map<Ptr, Sem>, h: Heads, current: Ptr, out: set<Ptr>) {
    exists p: Places :: Sound(m, sems, h, current, p, out)
  }

  class Scheduler {
    var mem: Tasks
    var sems: map<Ptr, Sem>
    var first: Ptr             // FIRST_THREAD
    var last: Ptr              // LAST_THREAD
    var current: Ptr           // current_task_TCB
    var idler: Ptr             // the task inside the idle loop of `schedule`
    var sleeping: Ptr          // sleeping_task_list
    var irqwaiting: Ptr
    var irqscalled: set<nat>   // a bit set in the C code
    var postponed: nat         // postpone_task_switches_counter
    var flag: bool             // task_switches_postponed_flag
    var time: nat
    var slice: nat             // time_slice_remaining
    ghost var at: Places

    function H(): Heads
      reads this`first, this`last, this`sleeping, this`irqwaiting, this`idler
    {
      Heads(first, last, sleeping, irqwaiting, idler)
    }

    ghost predicate Inv(out: set<Ptr>)
      reads this`mem, this`sems, this`first, this`last, this`sleeping, this`irqwaiting, this`idler, this`current,
            this`at
    {
      Sound(mem, sems, H(), current, at, out)
    }

    ghost function V(): View
      reads this`mem, this`current, this`at
    {
      View(mem, current, at)
    }

    ghost predicate Running()
      reads this`mem, this`current
    {
      current in mem && mem[current].state == RUNNING
    }

    ghost predicate Idle()
      reads this`current, this`idler, this`slice
    {
      current == 0 && idler != 0 && slice == 0
    }

    ghost predicate Settled()
      reads this`mem, this`current, this`idler, this`slice
    {
      Running() || Idle()
    }

    /** Between two steps: one task runs, or none does and its time slice is used up; no switch is pending. */
    ghost predicate Valid()
      reads this
    {
      Inv({}) && Settled() && postponed == 0 && !flag
    }

    /** `initialize_multitasking` */
    constructor (boot: Ptr)
      requires boot != 0
      ensures Valid() && Running() && current == boot && mem.Keys == {boot} && sems == map[] && time == 0
      ensures at == Places([], [], [], map[], map[]) && slice == SLICE
    {
      mem := map[boot := Tcb(0, RUNNING, 0, 0, false)];
      sems, irqscalled := map[], {};
      first, last, current, idler, sleeping, irqwaiting := 0, 0, boot, 0, 0, 0;
      postponed, flag, time, slice := 0, false, 0, SLICE;
      at := Places([], [], [], map[], map[]);
    }

    /** The append of `unblock_task`, with the link of the new last task cleared in all branches. */
    method AppendReady(x: Ptr, ghost out: set<Ptr>)
      requires Inv(out) && x in mem && x in out
      modifies this`first, this`last, this`mem, this`at
      ensures Inv(out - {x}) && SameData(old(mem), mem)
      ensures at == old(at).(ready := old(at.ready) + [x]) && mem[x].state == READY
      ensures Linking(old(mem), old(at.ready), x, mem)
      ensures old(mem[x].state) != RUNNING ==> Running() == old(Running())
    {
      AppendFacts(mem, sems, H(), current, at, out, x);
      mem := mem[x := mem[x].(state := READY)];
      if first == 0 {
        last := x;
        mem := mem[x := mem[x].(next := 0)];
        first := last;
      } else {
        mem := mem[last := mem[last].(next := x)];
        mem := mem[x := mem[x].(next := 0)];
        last := x;
      }
      at := at.(ready := at.ready + [x]);
    }

    /** The same with the link as `unblock_task` leaves it: sound exactly if it was clear or the queue was empty. */
    method AppendReadyAsWritten(x: Ptr, ghost out: set<Ptr>)
      requires Inv(out) && x in mem && x in out
      modifies this`first, this`last, this`mem
      ensures Placeable(mem, sems, H(), current, out - {x}) <==> old(mem[x].next == 0 || first == 0)
    {
      RawFacts(mem, sems, H(), current, at, out, x);
      mem := mem[x := mem[x].(state := READY)];
      if first == 0 {
        last := x;
        mem := mem[x := mem[x].(next := 0)];
        first := last;
      } else {
        mem := mem[last := mem[last].(next := x)];
        last := x;
      }
    }

    /** `unblock_task` */
    method UnblockTask(x: Ptr, ghost out: set<Ptr>) returns (f: Fault)
      requires Inv(out) && x in mem && x in out
      modifies this`first, this`last, this`mem, this`at
      ensures old(mem[x].state) == RUNNING ==> f == TASK_SHOULD_BE_RUNNING
      ensures old(mem[x].state) == READY ==> f == TASK_BADUNBLOCK
      ensures old(mem[x].state) != RUNNING && old(mem[x].state) != READY ==> f == NoFault
      ensures f == NoFault ==> Inv(out - {x}) && at == old(at).(ready := old(at.ready) + [x]) && mem[x].state == READY
      ensures SameData(old(mem), mem) && (f == NoFault ==> Linking(old(mem), old(at.ready), x, mem))
      ensures f == NoFault ==> Running() == old(Running())
    {
      if mem[x].state == RUNNING {
        return TASK_SHOULD_BE_RUNNING;
      }
      if mem[x].state == READY {
        return TASK_BADUNBLOCK;
      }
      AppendReady(x, out);
      return NoFault;
    }

    /** What `switch_to_task` does with a task that is still running, and the head of an empty queue set as well. */
    method Requeue(ghost x: Ptr)
      requires Inv({x}) && x in mem && x != current && Running() && (at.ready == [] ==> last == x)
      modifies this`first, this`last, this`mem, this`at
      ensures Inv({x}) && SameData(old(mem), mem)
      ensures at == old(at).(ready := old(at.ready) + [current])
      ensures mem[current].state == READY
    {
      RequeueFacts(mem, sems, H(), current, at, x);
      RequeueAsWritten();
      if first == 0 {
        first := current;
      }
      at := at.(ready := at.ready + [current]);
    }

    /** `switch_to_task` */
    method SwitchTo(x: Ptr)
      requires Inv({x}) && x in mem && x != current && current in mem && mem[current].state != READY
      requires at.ready == [] ==> last == x
      modifies this`first, this`last, this`mem, this`at, this`current
      ensures Inv({}) && SameData(old(mem), mem) && current == x && Running()
      ensures at == old(at).(ready := old(at.ready) + if old(Running()) then [old(current)] else [])
    {
      if mem[current].state == RUNNING {
        Requeue(x);
      }
      MakeCurrent(x);
    }

    /** `switch_to_task_wrapper`, with no switch postponed. */
    method SwitchWrapper(x: Ptr) returns (f: Fault)
      requires Inv({x}) && x in mem && x != current && current in mem && (at.ready == [] ==> last == x)
      modifies this`first, this`last, this`mem, this`at, this`current, this`slice
      ensures f == if old(mem[current].state) == READY then SHOULD_NOT_BE_READY2 else NoFault
      ensures f == NoFault ==> Inv({}) && SameData(old(mem), mem) && current == x && Running()
      ensures f == NoFault ==>
                at == old(at).(ready := old(at.ready) + if old(Running()) then [old(current)] else [])
      ensures f == NoFault ==> slice == if old(first) == 0 && !old(Running()) then 0 else SLICE
    {
      if mem[current].state == READY {
        return SHOULD_NOT_BE_READY2;
      }
      slice := if first == 0 && mem[current].state != RUNNING then 0 else SLICE;
      SwitchTo(x);
      return NoFault;
    }

    /** Take the first task out of the ready queue. */
    method PopReady() returns (x: Ptr)
      requires Inv({}) && at.ready != []
      modifies this`first, this`at
      ensures x == old(at.ready)[0] && Inv({x}) && x in mem && mem[x].state == READY
      ensures first == 0 <==> |old(at.ready)| == 1
      ensures at == old(at).(ready := old(at.ready)[1..]) && (at.ready == [] ==> last == x)
    {
      PoppedSound(mem, sems, H(), current, at);
      ReadyEnds(mem, sems, H(), current, at, {});
      x := first;
      first := mem[x].next;
      at := at.(ready := at.ready[1..]);
    }

    /** `schedule`, up to the idle loop. Its check that the current task is not ready never fails. */
    method Schedule()
      requires Inv({}) && current in mem && mem[current].state != READY
      modifies this`first, this`last, this`mem, this`at, this`current, this`slice, this`idler, this`flag
      ensures postponed != 0 ==> flag && V() == old(V()) && H() == old(H()) && slice == old(slice)
      ensures postponed == 0 ==> Inv({}) && Settled() && flag == old(flag)
      ensures postponed == 0 ==>
                current == NextTask(old(V())) && at == NextPlaces(old(V())) && SameData(old(V()).mem, mem)
      ensures postponed == 0 ==> idler == NextIdler(old(V()), old(idler))
      ensures postponed == 0 ==> slice == NextSlice(old(V()), old(slice))
    {
      if postponed != 0 {
        flag := true;
        return;
      }
      ReadyEnds(mem, sems, H(), current, at, {});
      if first != 0 {
        SwitchToFirst();
      } else if mem[current].state != RUNNING {
        GoIdle();
      }
    }

    method SwitchToFirst()
      requires Inv({}) && current in mem && mem[current].state != READY && at.ready != []
      modifies this`first, this`last, this`mem, this`at, this`current, this`slice
      ensures Inv({}) && Running() &&
                current == NextTask(old(V())) && at == NextPlaces(old(V())) && SameData(old(V()).mem, mem)
      ensures slice == NextSlice(old(V()), old(slice))
    {
      var x := PopReady();
      var f := SwitchWrapper(x);
      assert f == NoFault;
    }

    method GoIdle()
      requires Inv({}) && current in mem && mem[current].state != RUNNING
      modifies this`current, this`idler, this`slice
      ensures Inv({}) && Idle() && current == 0 && idler == old(current) && slice == 0
    {
      IdleSound(mem, sems, H(), current, at, 0);
      idler := current;
      current := 0;
      slice := 0;
    }

    /**
     * The end of the idle loop, once a task is ready. The check in `switch_to_task_wrapper` fails exactly when the
     * task that went idle is ready itself but not the first in the queue.
     */
    method Resume() returns (f: Fault)
      requires Valid() && Idle() && at.ready != []
      modifies this`first, this`last, this`mem, this`at, this`current, this`slice
      ensures f == if old(mem[idler].state == READY && at.ready[0] != idler) then SHOULD_NOT_BE_READY2 else NoFault
      ensures f == NoFault ==> Running() && Valid() && current == old(at.ready)[0] && SameData(old(mem), mem)
      ensures f == NoFault ==> at == old(at).(ready := old(at.ready)[1..])
      ensures f == NoFault ==> slice == if |old(at.ready)| == 1 || old(at.ready)[0] == old(idler) then 0 else SLICE
    {
      EndIdle();
      f := SwitchFromIdle();
    }

    method SwitchFromIdle() returns (f: Fault)
      requires Inv({}) && current in mem && mem[current].state != RUNNING && at.ready != []
      modifies this`first, this`last, this`mem, this`at, this`current, this`slice
      ensures f == if old(mem[current].state == READY && at.ready[0] != current) then SHOULD_NOT_BE_READY2 else NoFault
      ensures f == NoFault ==> Inv({}) && Running() && SameData(old(mem), mem)
      ensures f == NoFault ==> current == old(at.ready)[0] && at == old(at).(ready := old(at.ready)[1..])
      ensures f == NoFault ==>
                slice == if old(at.ready)[0] == old(current) then old(slice)
                         else if |old(at.ready)| == 1 then 0 else SLICE
    {
      var x := PopReady();
      if x == current {
        MakeCurrent(x);
        return NoFault;
      }
      f := SwitchWrapper(x);
    }

    method EndIdle()
      requires Valid() && Idle()
      modifies this`current
      ensures Inv({}) && current == idler && current in mem && mem[current].state != RUNNING
    {
      NobodyRuns(mem, sems, H(), current, at, idler);
      IdleSound(mem, sems, H(), current, at, idler);
      current := idler;
    }

    method LockStuff()
      modifies this`postponed
      ensures postponed == old(postponed) + 1
    {
      postponed := postponed + 1;
    }

    /** The count of `unlock_stuff`, and whether a switch has to happen now. Its check on the count never fails. */
    method Unlock() returns (due: bool)
      requires postponed > 0
      modifies this`postponed
      ensures postponed == old(postponed) - 1 && (due <==> postponed == 0 && flag)
    {
      postponed := postponed - 1;
      due := postponed == 0 && flag;
    }

    /** `unlock_stuff`. Its check that there is a current task never fails. */
    method UnlockStuff()
      requires postponed == 1 && Inv({}) && (!flag ==> Settled())
      requires flag ==> current in mem && mem[current].state != READY
      modifies this`first, this`last, this`mem, this`at, this`current, this`slice, this`idler, this`flag, this`postponed
      ensures Valid()
      ensures old(flag) ==> current == NextTask(old(V())) && at == NextPlaces(old(V())) && SameData(old(V()).mem, mem)
      ensures !old(flag) ==> mem == old(mem) && current == old(current) && at == old(at)
      ensures idler == if old(flag) then NextIdler(old(V()), old(idler)) else old(idler)
      ensures slice == if old(flag) then NextSlice(old(V()), old(slice)) else old(slice)
    {
      var due := Unlock();
      if due {
        flag := false;
        Schedule();
      }
    }

    /** `block_task` */
    method BlockTask(reason: State, ghost v: View)
      requires current in mem && reason != RUNNING && reason != READY
      requires v == View(Stored(mem, current, reason), current, at)
      requires Sound(Stored(mem, current, reason), sems, H(), current, at, {})
      modifies this`first, this`last, this`mem, this`at, this`current, this`slice, this`idler, this`flag
      ensures postponed != 0 ==> flag && mem == v.mem && H() == old(H())
      ensures postponed != 0 ==> current == old(current) && at == old(at) && slice == old(slice)
      ensures postponed == 0 ==> Inv({}) && Settled() && flag == old(flag)
      ensures postponed == 0 ==> current == NextTask(v) && at == NextPlaces(v) && SameData(v.mem, mem)
      ensures idler == if postponed == 0 then NextIdler(v, old(idler)) else old(idler)
      ensures slice == if postponed == 0 then NextSlice(v, old(slice)) else old(slice)
    {
      mem := Stored(mem, current, reason);
      Schedule();
    }

    /** `nano_sleep_until`: the task goes to the front of the sleeping list, unless the time has passed already. */
    method NanoSleepUntil(t: nat)
      requires Valid() && Running()
      modifies this`first, this`last, this`mem, this`at, this`current, this`slice, this`idler, this`flag,
               this`postponed, this`sleeping
      ensures Valid()
      ensures t < time ==> mem == old(mem) && current == old(current) && at == old(at)
      ensures t < time ==> slice == old(slice) && idler == old(idler) && sleeping == old(sleeping)
      ensures t >= time ==> old(current) in mem && mem[old(current)].ttn == t
      ensures t >= time ==>
                var v := Asleep(old(V()), old(sleeping), t);
                current == NextTask(v) && at == NextPlaces(v) && SameData(v.mem, mem)
                && idler == NextIdler(v, old(idler)) && slice == NextSlice(v, old(slice))
    {
      LockStuff();
      if t < time {
        var due := Unlock();
        return;
      }
      Sleep(t);
    }

    method Sleep(t: nat)
      requires Inv({}) && Running() && postponed == 1 && !flag
      modifies this`first, this`last, this`mem, this`at, this`current, this`slice, this`idler, this`flag,
               this`postponed, this`sleeping
      ensures Inv({}) && Settled() && postponed == 0 && !flag
      ensures var v := Asleep(old(V()), old(sleeping), t);
              current == NextTask(v) && at == NextPlaces(v) && SameData(v.mem, mem)
              && idler == NextIdler(v, old(idler)) && slice == NextSlice(v, old(slice))
    {
      ghost var v := EnqueueSleeper(t);
      var due := Unlock();
      assert !due;
      BlockTask(WAITING, v);
    }

    method EnqueueSleeper(t: nat) returns (ghost v: View)
      requires Inv({}) && Running()
      modifies this`mem, this`at, this`sleeping
      ensures current in mem && v == Asleep(old(V()), old(sleeping), t)
      ensures v == View(Stored(mem, current, WAITING), current, at)
      ensures Sound(Stored(mem, current, WAITING), sems, H(), current, at, {})
    {
      ghost var c := mem[current].(ttn := t, next := sleeping, state := WAITING);
      ghost var none: set<Ptr> := {};
      assert none - {current} == none;
      SleeperSound(mem, sems, H(), current, at, {}, current, c);
      mem := mem[current := mem[current].(ttn := t)];
      Overwritten(old(mem), current, mem[current], mem[current].(next := sleeping));
      mem := mem[current := mem[current].(next := sleeping)];
      Overwritten(old(mem), current, mem[current], c);
      sleeping := current;
      at := at.(asleep := [current] + at.asleep);
      assert Stored(mem, current, WAITING) == old(mem)[current := c];
      v := View(old(mem)[current := c], current, at);
    }

    /**
     * `wait_for_irq`: an interrupt that came already is taken at once; otherwise the task waits, maybe until a time.
     */
    method WaitForIrq(irq: nat, timeout: nat, onTimeout: bool)
      requires Valid() && Running()
      modifies this`first, this`last, this`mem, this`at, this`current, this`slice, this`idler, this`flag,
               this`postponed, this`irqwaiting, this`irqscalled
      ensures Valid()
      ensures irq in old(irqscalled) ==> irqscalled == old(irqscalled) - {irq}
      ensures irq in old(irqscalled) ==> mem == old(mem) && current == old(current) && at == old(at)
      ensures irq in old(irqscalled) ==> slice == old(slice) && idler == old(idler)
      ensures irq !in old(irqscalled) ==> irqscalled == old(irqscalled)
      ensures irq !in old(irqscalled) ==>
                && old(current) in mem && mem[old(current)].irq == irq && mem[old(current)].onTimeout == onTimeout
                && mem[old(current)].ttn == if timeout == 0 then 0 else old(time) + timeout
      ensures irq !in old(irqscalled) ==>
                var v := AwaitsIrq(old(V()), old(irqwaiting), irq, Deadline(old(time), timeout), onTimeout);
                current == NextTask(v) && at == NextPlaces(v) && SameData(v.mem, mem)
                && idler == NextIdler(v, old(idler)) && slice == NextSlice(v, old(slice))
    {
      LockStuff();
      if irq in irqscalled {
        TakeIrq(irq);
        return;
      }
      ghost var v := AwaitIrq(irq, timeout, onTimeout);
    }

    method TakeIrq(irq: nat)
      requires postponed == 1 && !flag
      modifies this`irqscalled, this`postponed
      ensures irqscalled == old(irqscalled) - {irq} && postponed == 0
    {
      irqscalled := irqscalled - {irq};
      var due := Unlock();
      assert !due;
    }

    method AwaitIrq(irq: nat, timeout: nat, onTimeout: bool) returns (ghost v: View)
      requires Inv({}) && Running() && postponed == 1 && !flag
      modifies this`first, this`last, this`mem, this`at, this`current, this`slice, this`idler, this`flag,
               this`postponed, this`irqwaiting
      ensures Inv({}) && Settled() && postponed == 0 && !flag
      ensures v == AwaitsIrq(old(V()), old(irqwaiting), irq, Deadline(old(time), timeout), onTimeout)
      ensures current == NextTask(v) && at == NextPlaces(v) && SameData(v.mem, mem)
      ensures idler == NextIdler(v, old(idler)) && slice == NextSlice(v, old(slice))
    {
      var ttn := Deadline(time, timeout);
      v := EnqueueIrqWaiter(irq, ttn, onTimeout);
      var due := Unlock();
      assert !due;
      BlockTask(WAITING_FOR_IRQ, v);
    }

    method EnqueueIrqWaiter(irq: nat, ttn: nat, onTimeout: bool) returns (ghost v: View)
      requires Inv({}) && Running()
      modifies this`mem, this`at, this`irqwaiting
      ensures current in mem
      ensures v == AwaitsIrq(old(V()), old(irqwaiting), irq, ttn, onTimeout)
      ensures v == View(Stored(mem, current, WAITING_FOR_IRQ), current, at)
      ensures Sound(Stored(mem, current, WAITING_FOR_IRQ), sems, H(), current, at, {})
    {
      ghost var c := Tcb(irqwaiting, WAITING_FOR_IRQ, ttn, irq, onTimeout);
      ghost var none: set<Ptr> := {};
      assert none - {current} == none;
      IrqWaiterSound(mem, sems, H(), current, at, {}, current, c);
      mem := mem[current := mem[current].(irq := irq, next := irqwaiting)];
      Overwritten(old(mem), current, mem[current], mem[current].(ttn := ttn, onTimeout := onTimeout));
      mem := mem[current := mem[current].(ttn := ttn, onTimeout := onTimeout)];
      Overwritten(old(mem), current, mem[current], c);
      irqwaiting := current;
      at := at.(irqs := [current] + at.irqs);
      assert Stored(mem, current, WAITING_FOR_IRQ) == old(mem)[current := c];
      v := View(old(mem)[current := c], current, at);
    }

    /**
     * The loop of the tick over the sleeping list: whose time has come is ready, the others go back in reverse order.
     */
    method WakeSleepers()
      requires Inv({})
      modifies this`first, this`last, this`mem, this`at, this`sleeping
      ensures Inv({}) && SameData(old(mem), mem) && at == SleepersWoken(old(at), old(at.asleep), old(mem), time)
      ensures Running() == old(Running())
    {
      ghost var q, at0, m0, k := at.asleep, at, mem, 0;
      var next := sleeping;
      SleepersOut(mem, sems, H(), current, at);
      sleeping := 0;
      at := at.(asleep := []);
      assert at0.ready + [] == at0.ready && q[..0] == [];
      while next != 0
        invariant k <= |q| && LinkedFrom(mem, q, k, next, WAITING) && Inv(Rest(q, k))
        invariant SameData(m0, mem) && at == SleepersWoken(at0, q[..k], m0, time)
        invariant Running() == old(Running())
        decreases |q| - k
      {
        next := WakeOrKeep(next, q, k, at0, m0);
        k := k + 1;
      }
      AllGone(mem, q, k, next, WAITING);
    }

    /** One round of that loop. */
    method WakeOrKeep(x: Ptr, ghost q: seq<Ptr>, ghost k: nat, ghost at0: Places, ghost m0: Tasks) returns (next: Ptr)
      requires LinkedFrom(mem, q, k, x, WAITING) && x != 0 && Inv(Rest(q, k))
      requires SameData(m0, mem) && k <= |q| && at == SleepersWoken(at0, q[..k], m0, time)
      modifies this`first, this`last, this`mem, this`at, this`sleeping
      ensures k < |q| && LinkedFrom(mem, q, k + 1, next, WAITING) && Inv(Rest(q, k + 1))
      ensures SameData(m0, mem) && at == SleepersWoken(at0, q[..k + 1], m0, time)
      ensures Running() == old(Running())
    {
      HeadOf(mem, q, k, x, WAITING);
      RestStep(q, k, k + 1);
      WokenStep(at0, q, k, k + 1, m0, mem, time);
      next := mem[x].next;
      assert x != next && mem[x].state == WAITING;
      if mem[x].ttn <= time {
        Wake(x, Rest(q, k), q, k, next, WAITING);
      } else {
        PushSleeper(x, Rest(q, k));
        TailKept(old(mem), q, k, next, WAITING, mem, x, x);
      }
    }

    /** Unblock a task that was taken from a list; the rest of the list stays linked. */
    method Wake(x: Ptr, ghost out: set<Ptr>, ghost q: seq<Ptr>, ghost k: nat, ghost next: Ptr, ghost st: State)
      requires Inv(out) && x in out && x in mem && mem[x].state == st && st != RUNNING && st != READY
      requires k < |q| && q[k] == x && LinkedFrom(mem, q, k, x, st) && next == At(q, k + 1)
      modifies this`first, this`last, this`mem, this`at
      ensures Inv(out - {x}) && SameData(old(mem), mem) && LinkedFrom(mem, q, k + 1, next, st)
      ensures at == old(at).(ready := old(at.ready) + [x])
      ensures Running() == old(Running())
    {
      ReadyEnds(mem, sems, H(), current, at, out);
      ghost var l := if at.ready == [] then x else LastOf(at.ready);
      var f := UnblockTask(x, out);
      assert f == NoFault;
      TailKept(old(mem), q, k, next, st, mem, x, l);
    }

    /**
     * The loop of the tick over the list of those waiting for interrupts: whose time-out has come is ready. A task
     * with a time-out but no function for it is an error.
     */
    method WakeTimedOut() returns (f: Fault)
      requires Inv({})
      modifies this`first, this`last, this`mem, this`at, this`irqwaiting
      ensures f == if NoFunction(old(mem), old(at.irqs), time) then TFNTTNNZ else NoFault
      ensures f == NoFault ==> Inv({}) && SameData(old(mem), mem)
      ensures f == NoFault ==> at == IrqsMoved(old(at), old(at.irqs), TimedOut(old(mem), time), Patient(old(mem), time))
      ensures f == NoFault ==> Running() == old(Running())
    {
      ghost var q, at0, m0, k := at.irqs, at, mem, 0;
      ghost var wake, stay := TimedOut(mem, time), Patient(mem, time);
      var next := irqwaiting;
      IrqsOut(mem, sems, H(), current, at);
      irqwaiting := 0;
      at := at.(irqs := []);
      assert at0.ready + [] == at0.ready && q[..0] == [];
      while next != 0
        invariant k <= |q| && LinkedFrom(mem, q, k, next, WAITING_FOR_IRQ) && Inv(Rest(q, k))
        invariant SameData(m0, mem) && at == IrqsMoved(at0, q[..k], wake, stay) && FunctionsUpTo(m0, q, k, time)
        invariant Running() == old(Running())
        decreases |q| - k
      {
        f, next := TimeOutRound(next, q, k, at0, m0);
        if f != NoFault {
          return;
        }
        k := k + 1;
      }
      AllGone(mem, q, k, next, WAITING_FOR_IRQ);
      f := NoFault;
    }

    /** One round of that loop. */
    method TimeOutRound(x: Ptr, ghost q: seq<Ptr>, ghost k: nat, ghost at0: Places, ghost m0: Tasks)
      returns (f: Fault, next: Ptr)
      requires LinkedFrom(mem, q, k, x, WAITING_FOR_IRQ) && x != 0 && Inv(Rest(q, k)) && SameData(m0, mem) && k <= |q|
      requires at == IrqsMoved(at0, q[..k], TimedOut(m0, time), Patient(m0, time)) && FunctionsUpTo(m0, q, k, time)
      modifies this`first, this`last, this`mem, this`at, this`irqwaiting
      ensures k < |q| && (f == NoFault || f == TFNTTNNZ)
      ensures f == TFNTTNNZ ==> NoFunction(m0, q, time)
      ensures f == NoFault ==> LinkedFrom(mem, q, k + 1, next, WAITING_FOR_IRQ) && Inv(Rest(q, k + 1))
      ensures f == NoFault ==> SameData(m0, mem) && FunctionsUpTo(m0, q, k + 1, time)
      ensures f == NoFault ==> at == IrqsMoved(at0, q[..k + 1], TimedOut(m0, time), Patient(m0, time))
      ensures f == NoFault ==> Running() == old(Running())
    {
      HeadOf(mem, q, k, x, WAITING_FOR_IRQ);
      RestStep(q, k, k + 1);
      InTimedOut(m0, mem, time, x);
      MovedStep(at0, q, k, k + 1, TimedOut(m0, time), Patient(m0, time));
      next := mem[x].next;
      if mem[x].ttn <= time && mem[x].ttn != 0 {
        if !mem[x].onTimeout {
          f := TFNTTNNZ;
          return;
        }
        Wake(x, Rest(q, k), q, k, next, WAITING_FOR_IRQ);
      } else {
        PushIrqWaiter(x, Rest(q, k));
        TailKept(old(mem), q, k, next, WAITING_FOR_IRQ, mem, x, x);
      }
      f := NoFault;
    }

    /** `unblockirq`: everyone who waits for the interrupt is ready; if nobody does, the interrupt is remembered. */
    method UnblockIrq(irq: nat)
      requires Valid()
      modifies this`first, this`last, this`mem, this`at, this`irqwaiting, this`irqscalled, this`postponed
      ensures Valid() && SameData(old(mem), mem)
      ensures at == IrqsMoved(old(at), old(at.irqs), WaitFor(old(mem), irq), WaitForOthers(old(mem), irq))
      ensures irqscalled == Remembered(old(irqscalled), irq, old(at.irqs), old(mem))
      ensures Running() == old(Running())
    {
      LockStuff();
      WakeOrRemember(irq);
    }

    /** The part of it under the lock, and the end of the lock. */
    method WakeOrRemember(irq: nat)
      requires Inv({}) && Settled() && postponed == 1 && !flag
      modifies this`first, this`last, this`mem, this`at, this`irqwaiting, this`irqscalled, this`postponed
      ensures Valid() && SameData(old(mem), mem)
      ensures at == IrqsMoved(old(at), old(at.irqs), WaitFor(old(mem), irq), WaitForOthers(old(mem), irq))
      ensures irqscalled == Remembered(old(irqscalled), irq, old(at.irqs), old(mem))
      ensures Running() == old(Running())
    {
      var any := WakeForIrq(irq);
      assert Settled();
      Conclude(any, irq);
    }

    method Conclude(any: bool, irq: nat)
      requires Inv({}) && Settled() && postponed == 1 && !flag
      modifies this`irqscalled, this`postponed
      ensures Valid() && irqscalled == if any then old(irqscalled) else old(irqscalled) + {irq}
    {
      if !any {
        irqscalled := irqscalled + {irq};
      }
      var due := Unlock();
      assert !due;
    }

    method WakeForIrq(irq: nat) returns (any: bool)
      requires Inv({})
      modifies this`first, this`last, this`mem, this`at, this`irqwaiting
      ensures Inv({}) && SameData(old(mem), mem)
      ensures at == IrqsMoved(old(at), old(at.irqs), WaitFor(old(mem), irq), WaitForOthers(old(mem), irq))
      ensures any <==> Keep(old(at.irqs), WaitFor(old(mem), irq)) != []
      ensures Running() == old(Running())
    {
      ghost var q, at0, m0, k := at.irqs, at, mem, 0;
      ghost var wake, stay := WaitFor(mem, irq), WaitForOthers(mem, irq);
      var next := irqwaiting;
      IrqsOut(mem, sems, H(), current, at);
      irqwaiting := 0;
      at := at.(irqs := []);
      any := false;
      assert at0.ready + [] == at0.ready && q[..0] == [];
      while next != 0
        invariant k <= |q| && LinkedFrom(mem, q, k, next, WAITING_FOR_IRQ) && Inv(Rest(q, k))
        invariant SameData(m0, mem) && at == IrqsMoved(at0, q[..k], wake, stay)
        invariant any <==> Keep(q[..k], wake) != []
        invariant Running() == old(Running())
        decreases |q| - k
      {
        var woken;
        woken, next := IrqRound(next, irq, q, k, at0, m0);
        KeepMore([], q, k, k + 1, wake);
        any := any || woken;
        k := k + 1;
      }
      AllGone(mem, q, k, next, WAITING_FOR_IRQ);
    }

    method IrqRound(x: Ptr, irq: nat, ghost q: seq<Ptr>, ghost k: nat, ghost at0: Places, ghost m0: Tasks)
      returns (woken: bool, next: Ptr)
      requires LinkedFrom(mem, q, k, x, WAITING_FOR_IRQ) && x != 0 && Inv(Rest(q, k)) && SameData(m0, mem) && k <= |q|
      requires at == IrqsMoved(at0, q[..k], WaitFor(m0, irq), WaitForOthers(m0, irq))
      modifies this`first, this`last, this`mem, this`at, this`irqwaiting
      ensures k < |q| && LinkedFrom(mem, q, k + 1, next, WAITING_FOR_IRQ) && Inv(Rest(q, k + 1)) && SameData(m0, mem)
      ensures at == IrqsMoved(at0, q[..k + 1], WaitFor(m0, irq), WaitForOthers(m0, irq))
      ensures woken <==> q[k] in WaitFor(m0, irq)
      ensures Running() == old(Running())
    {
      HeadOf(mem, q, k, x, WAITING_FOR_IRQ);
      RestStep(q, k, k + 1);
      InWaitFor(m0, mem, irq, x);
      MovedStep(at0, q, k, k + 1, WaitFor(m0, irq), WaitForOthers(m0, irq));
      next := mem[x].next;
      woken := mem[x].irq == irq;
      if woken {
        Wake(x, Rest(q, k), q, k, next, WAITING_FOR_IRQ);
      } else {
        PushIrqWaiter(x, Rest(q, k));
        TailKept(old(mem), q, k, next, WAITING_FOR_IRQ, mem, x, x);
      }
    }

    method PushIrqWaiter(x: Ptr, ghost out: set<Ptr>)
      requires Inv(out) && x in out && x in mem && mem[x].state == WAITING_FOR_IRQ
      modifies this`mem, this`at, this`irqwaiting
      ensures Inv(out - {x}) && SameData(old(mem), mem) && Differ(old(mem), mem, x, x)
      ensures at == old(at).(irqs := [x] + old(at.irqs))
      ensures Running() == old(Running())
    {
      IrqWaiterSound(mem, sems, H(), current, at, out, x, mem[x].(next := irqwaiting));
      mem := mem[x := mem[x].(next := irqwaiting)];
      irqwaiting := x;
      at := at.(irqs := [x] + at.irqs);
    }

    /**
     * `PIT_IRQ_handler`: time goes on, sleepers and time-outs whose time has come are ready, and a task whose slice is
     * used up makes room for the next one. `v` is the state before that switch.
     */
    method PIT_IRQ_handler() returns (f: Fault, ghost v: View)
      requires Valid()
      modifies this
      ensures time == old(time) + TICK
      ensures f == if NoFunction(old(mem), old(at.irqs), time) then TFNTTNNZ else NoFault
      ensures f == NoFault ==> Valid() && SameData(old(mem), v.mem) && v.current == old(current)
      ensures f == NoFault ==> Runs(v) == old(Running()) && v.at == Ticked(old(at), old(mem), time)
      ensures f == NoFault && 0 < old(slice) <= TICK ==>
                && current == NextTask(v) && at == NextPlaces(v) && SameData(v.mem, mem)
                && slice == NextSlice(v, old(slice))
      ensures f == NoFault && !(0 < old(slice) <= TICK) ==> mem == v.mem && current == v.current && at == v.at
      ensures f == NoFault && old(slice) > TICK ==> slice == old(slice) - TICK
      ensures f == NoFault && old(slice) == 0 ==> slice == 0
      ensures f == NoFault ==> idler == old(idler)
    {
      LockStuff();
      time := time + TICK;
      f, v := TickLocked();
    }

    method TickLocked() returns (f: Fault, ghost v: View)
      requires Inv({}) && Settled() && postponed == 1 && !flag
      modifies this`first, this`last, this`mem, this`at, this`sleeping, this`irqwaiting, this`current, this`slice,
               this`idler, this`flag, this`postponed
      ensures f == if NoFunction(old(mem), old(at.irqs), time) then TFNTTNNZ else NoFault
      ensures f == NoFault ==> Valid() && SameData(old(mem), v.mem) && v.current == old(current)
      ensures f == NoFault ==> Runs(v) == old(Running()) && v.at == Ticked(old(at), old(mem), time)
      ensures f == NoFault && 0 < old(slice) <= TICK ==>
                && current == NextTask(v) && at == NextPlaces(v) && SameData(v.mem, mem)
                && slice == NextSlice(v, old(slice))
      ensures f == NoFault && !(0 < old(slice) <= TICK) ==> mem == v.mem && current == v.current && at == v.at
      ensures f == NoFault && old(slice) > TICK ==> slice == old(slice) - TICK
      ensures f == NoFault && old(slice) == 0 ==> slice == 0
      ensures f == NoFault ==> idler == old(idler)
    {
      f, v := WakeAll();
      if f != NoFault {
        return;
      }
      EndTick(v);
    }

    /** The two loops of the tick. */
    method WakeAll() returns (f: Fault, ghost v: View)
      requires Inv({})
      modifies this`first, this`last, this`mem, this`at, this`sleeping, this`irqwaiting
      ensures f == if NoFunction(old(mem), old(at.irqs), time) then TFNTTNNZ else NoFault
      ensures v == V() && v.current == old(current)
      ensures f == NoFault ==> Inv({}) && SameData(old(mem), v.mem) && Running() == Runs(v) == old(Running())
      ensures f == NoFault ==> v.at == Ticked(old(at), old(mem), time)
    {
      WakeSleepers();
      SameTimes(old(mem), mem, at.irqs, time);
      f := WakeTimedOut();
      v := V();
    }

    /** The end of the tick. */
    method EndTick(ghost v: View)
      requires Inv({}) && Settled() && postponed == 1 && !flag && v == V()
      modifies this`first, this`last, this`mem, this`at, this`current, this`slice, this`idler, this`flag, this`postponed
      ensures Valid()
      ensures 0 < old(slice) <= TICK ==>
                && current == NextTask(v) && at == NextPlaces(v) && SameData(v.mem, mem)
                && slice == NextSlice(v, old(slice))
      ensures !(0 < old(slice) <= TICK) ==> mem == v.mem && current == v.current && at == v.at
      ensures old(slice) > TICK ==> slice == old(slice) - TICK
      ensures old(slice) == 0 ==> slice == 0
      ensures idler == old(idler)
    {
      if slice != 0 {
        if slice <= TICK {
          Schedule();
        } else {
          slice := slice - TICK;
        }
      }
      UnlockStuff();
    }

    method PushSleeper(x: Ptr, ghost out: set<Ptr>)
      requires Inv(out) && x in out && x in mem && mem[x].state == WAITING
      modifies this`mem, this`at, this`sleeping
      ensures Inv(out - {x}) && SameData(old(mem), mem) && Differ(old(mem), mem, x, x)
      ensures at == old(at).(asleep := [x] + old(at.asleep))
      ensures Running() == old(Running())
    {
      SleeperSound(mem, sems, H(), current, at, out, x, mem[x].(next := sleeping));
      mem := mem[x := mem[x].(next := sleeping)];
      sleeping := x;
      at := at.(asleep := [x] + at.asleep);
    }

    /** `create_semaphore`, at an address that was not in use. */
    method CreateSemaphore(s: Ptr, max: nat)
      requires Valid() && s !in sems
      modifies this`sems, this`at
      ensures Valid() && sems == old(sems)[s := Sem(max, 0, 0, 0)] && mem == old(mem)
      ensures at == old(at).(logs := old(at.logs)[s := Log([], multiset{}, [], [])])
    {
      NewSound(mem, sems, H(), current, at, s, max);
      sems := sems[s := Sem(max, 0, 0, 0)];
      at := at.(logs := at.logs[s := Log([], multiset{}, [], [])]);
    }

    /**
     * `acquire_semaphore`: a free permit is taken at once; otherwise the task queues up, and the switch that
     * `block_task` asks for happens in `unlock_stuff`. `v` is the state before that switch.
     */
    method AcquireSemaphore(s: Ptr) returns (ghost v: View)
      requires Valid() && Running() && s in sems && s in at.logs
      modifies this`first, this`last, this`mem, this`sems, this`at, this`current, this`slice, this`idler, this`flag,
               this`postponed
      ensures Valid()
      ensures old(sems[s].count < sems[s].max) ==>
                && sems == CountedUp(old(sems), s) && mem == old(mem) && current == old(current)
                && at == Logged(old(at), s, Grants(old(at.logs[s]), old(current)))
                && slice == old(slice) && idler == old(idler)
      ensures old(sems[s].count >= sems[s].max) ==>
                && v.current == old(current) && v.at == Waiting(old(at), s, old(current)) && !Runs(v)
                && current == NextTask(v) && at == NextPlaces(v) && SameData(old(mem), mem)
                && idler == NextIdler(v, old(idler)) && slice == NextSlice(v, old(slice))
    {
      LockStuff();
      if sems[s].count < sems[s].max {
        TakeFree(s);
        v := V();
      } else {
        v := WaitForPermit(s);
      }
    }

    method TakeFree(s: Ptr)
      requires Inv({}) && Settled() && postponed == 1 && !flag && s in sems && sems[s].count < sems[s].max
      requires s in at.logs
      modifies this`sems, this`at, this`postponed
      ensures Valid() && sems == CountedUp(old(sems), s)
      ensures at == Logged(old(at), s, Grants(old(at.logs[s]), old(current)))
    {
      TakePermit(s);
      var due := Unlock();
      assert !due;
    }

    method TakePermit(s: Ptr)
      requires Inv({}) && s in sems && sems[s].count < sems[s].max && s in at.logs
      modifies this`sems, this`at
      ensures Inv({}) && sems == CountedUp(old(sems), s)
      ensures at == Logged(old(at), s, Grants(old(at.logs[s]), old(current)))
    {
      TakenSound(mem, sems, H(), current, at, s, current);
      sems := CountedUp(sems, s);
      at := Logged(at, s, Grants(at.logs[s], current));
    }

    method WaitForPermit(s: Ptr) returns (ghost v: View)
      requires Inv({}) && Running() && postponed == 1 && !flag && s in sems && sems[s].count >= sems[s].max
      requires s in at.logs
      modifies this`first, this`last, this`mem, this`sems, this`at, this`current, this`slice, this`idler, this`flag,
               this`postponed
      ensures Valid()
      ensures v.current == old(current) && v.at == Waiting(old(at), s, old(current)) && !Runs(v)
      ensures current == NextTask(v) && at == NextPlaces(v) && SameData(old(mem), mem)
      ensures idler == NextIdler(v, old(idler)) && slice == NextSlice(v, old(slice))
    {
      v := Enqueue(s);
      BlockPostponed(v);
      SwitchAtUnlock();
    }

    /** The store of `block_task`, and the switch it asks for while that is postponed. */
    method BlockPostponed(ghost v: View)
      requires current in mem && postponed == 1
      requires v == View(Stored(mem, current, WAITING_FOR_LOCK), current, at)
      requires Sound(v.mem, sems, H(), current, at, {})
      modifies this`first, this`last, this`mem, this`sems, this`at, this`current, this`slice, this`idler, this`flag,
               this`postponed
      ensures postponed == 1 && flag && V() == v && Inv({}) && current in mem && !Runs(v) && idler == old(idler)
    {
      BlockTask(WAITING_FOR_LOCK, v);
    }

    method SwitchAtUnlock()
      requires postponed == 1 && flag && Inv({}) && current in mem && mem[current].state != READY
      modifies this`first, this`last, this`mem, this`sems, this`at, this`current, this`slice, this`idler, this`flag,
               this`postponed
      ensures Valid()
      ensures current == NextTask(old(V())) && at == NextPlaces(old(V())) && SameData(old(mem), mem)
      ensures idler == NextIdler(old(V()), old(idler)) && slice == NextSlice(old(V()), old(slice))
    {
      UnlockStuff();
    }

    /** The current task goes to the end of the queue of a semaphore; its state is changed next. */
    method Enqueue(s: Ptr) returns (ghost v: View)
      requires Inv({}) && Running() && s in sems && sems[s].count >= sems[s].max && s in at.logs
      modifies this`mem, this`sems, this`at
      ensures current in mem && v == View(Stored(mem, current, WAITING_FOR_LOCK), current, at)
      ensures at == Waiting(old(at), s, old(current)) && SameData(old(mem), v.mem)
      ensures Sound(Stored(mem, current, WAITING_FOR_LOCK), sems, H(), current, at, {})
    {
      EnqueueFacts(mem, sems, H(), current, at, s);
      mem := mem[current := mem[current].(next := 0)];
      if sems[s].first == 0 {
        sems := sems[s := sems[s].(first := current)];
      } else {
        var l := sems[s].last;
        mem := mem[l := mem[l].(next := current)];
      }
      sems := sems[s := sems[s].(last := current)];
      at := Waiting(at, s, current);
      v := View(Stored(mem, current, WAITING_FOR_LOCK), current, at);
    }

    /**
     * `release_semaphore`, giving back a permit of `holder`: it passes to the task that waited longest, which becomes
     * ready, or becomes free if nobody waits.
     */
    method ReleaseSemaphore(s: Ptr, ghost holder: Ptr)
      requires Valid() && s in sems && s in at.logs && holder in at.logs[s].holders
      modifies this`mem, this`sems, this`at, this`first, this`last, this`postponed
      ensures Valid() && SameData(old(mem), mem) && Running() == old(Running())
      ensures old(at.logs[s].queue) == [] ==>
                && sems == CountedDown(old(sems), s) && mem == old(mem)
                && at == Logged(old(at), s, GivesBack(old(at.logs[s]), holder))
      ensures old(at.logs[s].queue) != [] ==>
                && s in sems && sems[s].count == old(sems[s].count)
                && at == HandedOver(old(at), s, holder)
    {
      LockStuff();
      SemFacts(mem, sems, at, s);
      if sems[s].first != 0 {
        ReleaseToWaiter(s, holder);
      } else {
        ReleaseFree(s, holder);
      }
    }

    method ReleaseFree(s: Ptr, ghost holder: Ptr)
      requires Inv({}) && Settled() && postponed == 1 && !flag
      requires s in sems && s in at.logs && holder in at.logs[s].holders && at.logs[s].queue == []
      modifies this`sems, this`at, this`postponed
      ensures Valid() && sems == CountedDown(old(sems), s)
      ensures at == Logged(old(at), s, GivesBack(old(at.logs[s]), holder))
    {
      FreePermit(s, holder);
      var due := Unlock();
      assert !due;
    }

    method ReleaseToWaiter(s: Ptr, ghost holder: Ptr)
      requires Inv({}) && Settled() && postponed == 1 && !flag
      requires s in sems && s in at.logs && holder in at.logs[s].holders && at.logs[s].queue != []
      modifies this`mem, this`sems, this`at, this`first, this`last, this`postponed
      ensures Valid() && SameData(old(mem), mem) && Running() == old(Running())
      ensures s in sems && sems[s].count == old(sems[s].count) && at == HandedOver(old(at), s, holder)
    {
      HandOver(s, holder);
      assert Settled();
      var due := Unlock();
      assert !due;
    }

    method FreePermit(s: Ptr, ghost holder: Ptr)
      requires Inv({}) && s in sems && s in at.logs && holder in at.logs[s].holders && at.logs[s].queue == []
      modifies this`sems, this`at
      ensures Inv({}) && sems == CountedDown(old(sems), s)
      ensures at == Logged(old(at), s, GivesBack(old(at.logs[s]), holder))
    {
      FreedSound(mem, sems, H(), current, at, s, holder);
      sems := CountedDown(sems, s);
      at := Logged(at, s, GivesBack(at.logs[s], holder));
    }

    method HandOver(s: Ptr, ghost holder: Ptr)
      requires Inv({}) && s in sems && s in at.logs && holder in at.logs[s].holders && at.logs[s].queue != []
      modifies this`mem, this`sems, this`at, this`first, this`last
      ensures Inv({}) && SameData(old(mem), mem) && Running() == old(Running())
      ensures s in sems && sems[s].count == old(sems[s].count) && at == HandedOver(old(at), s, holder)
    {
      var x := TakeFirstWaiter(s, holder);
      assert {x} - {x} == {};
      var f := UnblockTask(x, {x});
      assert f == NoFault;
    }

    method TakeFirstWaiter(s: Ptr, ghost holder: Ptr) returns (x: Ptr)
      requires Inv({}) && s in sems && s in at.logs && holder in at.logs[s].holders && at.logs[s].queue != []
      modifies this`sems, this`at
      ensures x in mem && mem[x].state == WAITING_FOR_LOCK && Inv({x}) && x == old(at.logs[s].queue[0])
      ensures s in sems && sems[s].count == old(sems[s].count)
      ensures at == Logged(old(at), s, HandsOver(old(at.logs[s]), holder))
    {
      HandOverSound(mem, sems, H(), current, at, s, holder);
      x := sems[s].first;
      sems := sems[s := sems[s].(first := mem[x].next)];
      at := at.(logs := at.logs[s := HandsOver(at.logs[s], holder)]);
    }

    /** The part of `ckprocA` that queues a new task, at an address that was not in use. */
    method Spawn(x: Ptr)
      requires Valid() && x != 0 && x !in mem
      modifies this`mem, this`at, this`first, this`last
      ensures Valid() && x in mem && mem[x].state == READY && Running() == old(Running())
      ensures mem.Keys == old(mem.Keys) + {x} && forall t | t in old(mem) :: mem[t].ttn == old(mem)[t].ttn
      ensures at == old(at).(ready := old(at.ready) + [x])
    {
      SpawnFacts(mem, sems, H(), current, at, x);
      mem := mem[x := Tcb(0, READY, 0, 0, false)];
      if first != 0 {
        mem := mem[last := mem[last].(next := x)];
        last := x;
      } else {
        first := x;
        last := x;
      }
      at := at.(ready := at.ready + [x]);
    }

    /** The switch that `schedule` makes in the state `v`. */
    ghost predicate Switched(v: View, slice0: nat, idler0: Ptr)
      reads this
    {
      && current == NextTask(v) && at == NextPlaces(v)
      && slice == NextSlice(v, slice0) && idler == NextIdler(v, idler0)
    }

    /** Nothing that decides about switches has changed but the ready queue, which may be longer. */
    ghost predicate GoesOn(v: View, slice0: nat, idler0: Ptr)
      reads this
    {
      current == v.current && slice == slice0 && idler == idler0 && v.at.ready <= at.ready && Running() == Runs(v)
    }

    // What each step does.

    twostate predicate DidTick(f: Fault, v: View)
      reads this
    {
      && time == old(time) + TICK
      && f == (if NoFunction(old(mem), old(at.irqs), time) then TFNTTNNZ else NoFault)
      && (f == NoFault ==>
            && v.current == old(current) && Runs(v) == old(Running()) && v.at == Ticked(old(at), old(mem), time)
            && (0 < old(slice) <= TICK ==> Switched(v, old(slice), old(idler)))
            && (old(slice) > TICK ==> GoesOn(v, old(slice) - TICK, old(idler)) && at == v.at)
            && (old(slice) == 0 ==> GoesOn(v, 0, old(idler)) && at == v.at))
    }

    method TickStep() returns (f: Fault, ghost v: View)
      requires Valid()
      modifies this
      ensures (f == NoFault ==> Valid()) && DidTick(f, v)
    {
      f, v := PIT_IRQ_handler();
    }

    twostate predicate DidIrq(irq: nat)
      reads this
    {
      && time == old(time) && GoesOn(old(V()), old(slice), old(idler))
      && at == IrqsMoved(old(at), old(at.irqs), WaitFor(old(mem), irq), WaitForOthers(old(mem), irq))
      && irqscalled == Remembered(old(irqscalled), irq, old(at.irqs), old(mem))
    }

    method IrqStep(irq: nat)
      requires Valid()
      modifies this
      ensures Valid() && DidIrq(irq)
    {
      UnblockIrq(irq);
    }

    twostate predicate Idles()
      reads this
    {
      && time == old(time) && V() == old(V()) && sems == old(sems) && irqscalled == old(irqscalled)
      && slice == old(slice) && idler == old(idler)
    }

    /** The idle loop ends once a task is ready. */
    twostate predicate DidResume(f: Fault)
      reads this
    {
      if old(current) == 0 && old(at.ready) != [] then
        && time == old(time)
        && f == (if old(idler) in old(mem) && old(mem)[old(idler)].state == READY && old(at.ready)[0] != old(idler)
                 then SHOULD_NOT_BE_READY2 else NoFault)
        && (f == NoFault ==> current == old(at.ready)[0] && at == old(at).(ready := old(at.ready)[1..]))
      else
        f == NoFault && Idles()
    }

    method ResumeStep() returns (f: Fault)
      requires Valid()
      modifies this
      ensures (f == NoFault ==> Valid()) && DidResume(f)
    {
      f := NoFault;
      ReadyEnds(mem, sems, H(), current, at, {});
      if current == 0 && first != 0 {
        f := Resume();
      }
    }

    twostate predicate DidCreate(s: Ptr, max: nat)
      reads this
    {
      && time == old(time) && GoesOn(old(V()), old(slice), old(idler))
      && (if s in old(sems) then sems == old(sems) && at == old(at)
          else sems == old(sems)[s := Sem(max, 0, 0, 0)]
               && at == old(at).(logs := old(at.logs)[s := Log([], multiset{}, [], [])]))
    }

    method CreateStep(s: Ptr, max: nat)
      requires Valid()
      modifies this
      ensures Valid() && DidCreate(s, max)
    {
      if s !in sems {
        CreateSemaphore(s, max);
      }
    }

    twostate predicate DidRelease(s: Ptr)
      reads this
    {
      if s in old(sems) && old(sems)[s].count > 0 then
        && time == old(time) && GoesOn(old(V()), old(slice), old(idler)) && s in old(at.logs)
        && at.asleep == old(at.asleep) && at.irqs == old(at.irqs)
        && (if old(at.logs)[s].queue == [] then sems == CountedDown(old(sems), s)
            else s in sems && sems[s].count == old(sems)[s].count
                 && at.ready == old(at.ready) + [old(at.logs)[s].queue[0]])
      else
        Idles()
    }

    method ReleaseStep(s: Ptr)
      requires Valid()
      modifies this
      ensures Valid() && DidRelease(s)
    {
      if s in sems && sems[s].count > 0 {
        ghost var holder := SomeHolder(mem, sems, at, s);
        ReleaseSemaphore(s, holder);
      }
    }

    twostate predicate DidSleep(t: nat, v: View)
      reads this
    {
      if !old(Running()) || t < old(time) then
        Idles()
      else
        v == Asleep(old(V()), old(sleeping), t) && time == old(time) && Switched(v, old(slice), old(idler))
    }

    method SleepStep(t: nat) returns (ghost v: View)
      requires Valid()
      modifies this
      ensures Valid() && DidSleep(t, v)
    {
      v := V();
      if current != 0 {
        v := Asleep(V(), sleeping, t);
        NanoSleepUntil(t);
      }
    }

    twostate predicate DidAwait(irq: nat, timeout: nat, onTimeout: bool, v: View)
      reads this
    {
      if !old(Running()) then
        Idles()
      else
        && time == old(time)
        && (if irq in old(irqscalled) then
              && irqscalled == old(irqscalled) - {irq} && GoesOn(old(V()), old(slice), old(idler)) && at == old(at)
            else
              && v == AwaitsIrq(old(V()), old(irqwaiting), irq, Deadline(time, timeout), onTimeout)
              && Switched(v, old(slice), old(idler)))
    }

    method AwaitStep(irq: nat, timeout: nat, onTimeout: bool) returns (ghost v: View)
      requires Valid()
      modifies this
      ensures Valid() && DidAwait(irq, timeout, onTimeout, v)
    {
      v := V();
      if current != 0 {
        v := AwaitsIrq(V(), irqwaiting, irq, Deadline(time, timeout), onTimeout);
        WaitForIrq(irq, timeout, onTimeout);
      }
    }

    twostate predicate DidAcquire(s: Ptr, v: View)
      reads this
    {
      if !old(Running()) || s !in old(sems) then
        Idles()
      else
        && time == old(time) && s in old(at.logs)
        && (if old(sems)[s].count < old(sems)[s].max then
              && sems == CountedUp(old(sems), s) && GoesOn(old(V()), old(slice), old(idler))
              && at == Logged(old(at), s, Grants(old(at.logs)[s], current))
            else
              && v.current == old(current) && v.at == Waiting(old(at), s, old(current)) && !Runs(v)
              && Switched(v, old(slice), old(idler)))
    }

    method AcquireStep(s: Ptr) returns (ghost v: View)
      requires Valid()
      modifies this
      ensures Valid() && DidAcquire(s, v)
    {
      v := V();
      if current != 0 && s in sems {
        SemFacts(mem, sems, at, s);
        v := AcquireSemaphore(s);
      }
    }

    twostate predicate DidBear(x: Ptr)
      reads this
    {
      if old(Running()) && x != 0 && x !in old(mem) then
        && time == old(time) && GoesOn(old(V()), old(slice), old(idler))
        && x in mem && at == old(at).(ready := old(at.ready) + [x])
      else
        Idles()
    }

    method BirthStep(x: Ptr)
      requires Valid()
      modifies this
      ensures Valid() && DidBear(x)
    {
      if current != 0 && x != 0 && x !in mem {
        Spawn(x);
      }
    }

    twostate predicate Did(e: Event, f: Fault, v: View)
      reads this
    {
      match e
      case Tick => DidTick(f, v)
      case Irq(irq) => f == NoFault && DidIrq(irq)
      case Resumed => DidResume(f)
      case Create(s, max) => f == NoFault && DidCreate(s, max)
      case Release(s) => f == NoFault && DidRelease(s)
      case Sleep(t) => f == NoFault && DidSleep(t, v)
      case Await(irq, timeout, onTimeout) => f == NoFault && DidAwait(irq, timeout, onTimeout, v)
      case Acquire(s) => f == NoFault && DidAcquire(s, v)
      case Born(x) => f == NoFault && DidBear(x)
    }

    /** Any step, with what it does; one that cannot happen in this state changes nothing. */
    method Step(e: Event) returns (f: Fault, ghost v: View)
      requires Valid()
      modifies this
      ensures (f == NoFault ==> Valid()) && Did(e, f, v)
    {
      f, v := NoFault, V();
      match e
      case Tick => f, v := TickStep();
      case Irq(irq) => IrqStep(irq);
      case Resumed => f := ResumeStep();
      case Create(s, max) => CreateStep(s, max);
      case Release(s) => ReleaseStep(s);
      case Sleep(t) => v := SleepStep(t);
      case Await(irq, timeout, onTimeout) => v := AwaitStep(irq, timeout, onTimeout);
      case Acquire(s) => v := AcquireStep(s);
      case Born(x) => BirthStep(x);
    }

    /** Every run: whatever steps follow one another, the state is sound after each, unless an error ended the run. */
    method Run(events: seq<Event>) returns (f: Fault)
      requires Valid()
      modifies this
      ensures f == NoFault ==> Valid()
      ensures f == NoFault || f == SHOULD_NOT_BE_READY2 || f == TFNTTNNZ
    {
      f := NoFault;
      for i := 0 to |events|
        invariant f == NoFault && Valid()
      {
        ghost var v;
        f, v := Step(events[i]);
        if f != NoFault {
          return;
        }
      }
    }

    method MakeCurrent(x: Ptr)
      requires Inv({x}) && x in mem && (current in mem && current != x ==> mem[current].state != RUNNING)
      modifies this`mem, this`current
      ensures Inv({}) && SameData(old(mem), mem) && current == x && Running()
    {
      RunningSound(mem, sems, H(), current, at, x);
      mem := mem[x := mem[x].(state := RUNNING)];
      current := x;
    }

    method RequeueAsWritten()
      requires current in mem && last in mem
      modifies this`mem, this`last
      ensures mem == RequeuedMem(old(mem), old(last), current) && last == current
    {
      mem := mem[current := mem[current].(state := READY)];
      mem := mem[last := mem[last].(next := current)];
      last := current;
      mem := mem[current := mem[current].(next := 0)];
    }

    /** `switch_to_task` as it is: sound exactly if no running task meets an empty queue, where it gets lost. */
    method SwitchToAsWritten(x: Ptr)
      requires Inv({x}) && x in mem && x != current && current in mem && mem[current].state != READY
      requires at.ready == [] ==> last == x
      modifies this`first, this`last, this`mem, this`at, this`current
      ensures Placeable(mem, sems, H(), current, {}) <==> !(old(Running()) && old(first) == 0)
    {
      AsWrittenFacts(mem, sems, H(), current, at, x);
      if mem[current].state == RUNNING {
        RequeueAsWritten();
      }
      mem := mem[x := mem[x].(state := RUNNING)];
      current := x;
    }
  }

  /** Tasks whose time has come. */
  function Due(m: Tasks, time: nat): set<Ptr> {
    set t | t in m && m[t].ttn <= time
  }

  function Later(m: Tasks, time: nat): set<Ptr> {
    set t | t in m && m[t].ttn > time
  }

  /** The places after the tasks in `q` were looked at: the woken ones are ready, the others are back in the list. */
  function SleepersWoken(at: Places, q: seq<Ptr>, m: Tasks, time: nat): Places {
    at.(ready := at.ready + Keep(q, Due(m, time)), asleep := KeepBackwards(q, Later(m, time)))
  }

  /** Tasks whose time-out has come, and the others. */
  function TimedOut(m: Tasks, time: nat): set<Ptr> {
    set t | t in m && m[t].ttn <= time && m[t].ttn != 0
  }

  function Patient(m: Tasks, time: nat): set<Ptr> {
    set t | t in m && !(m[t].ttn <= time && m[t].ttn != 0)
  }

  function WaitFor(m: Tasks, irq: nat): set<Ptr> {
    set t | t in m && m[t].irq == irq
  }

  function WaitForOthers(m: Tasks, irq: nat): set<Ptr> {
    set t | t in m && m[t].irq != irq
  }

  /** The places after the tasks in `q` were looked at: some are ready, the others are back in the list, backwards. */
  function IrqsMoved(at: Places, q: seq<Ptr>, wake: set<Ptr>, stay: set<Ptr>): Places {
    at.(ready := at.ready + Keep(q, wake), irqs := KeepBackwards(q, stay))
  }

  /** The interrupts remembered after one came: nobody may have waited for it. */
  function Remembered(called: set<nat>, irq: nat, q: seq<Ptr>, m: Tasks): set<nat> {
    if Keep(q, WaitFor(m, irq)) == [] then called + {irq} else called
  }

  /** `current_count++` */
  function CountedUp(sems: map<Ptr, Sem>, s: Ptr): map<Ptr, Sem>
    requires s in sems
  {
    sems[s := sems[s].(count := sems[s].count + 1)]
  }

  /** `current_count--` */
  function CountedDown(sems: map<Ptr, Sem>, s: Ptr): map<Ptr, Sem>
    requires s in sems
  {
    sems[s := sems[s].(count := sems[s].count - 1)]
  }

  function Logged(at: Places, s: Ptr, log: Log): Places {
    at.(logs := at.logs[s := log])
  }

  /** The places after the first task in the queue of a semaphore got a permit from `holder` and became ready. */
  function HandedOver(at: Places, s: Ptr, holder: Ptr): Places
    requires s in at.logs && at.logs[s].queue != []
  {
    Logged(at, s, HandsOver(at.logs[s], holder)).(ready := at.ready + [at.logs[s].queue[0]])
  }

  /** The places after a task joined the queue of a semaphore. */
  function Waiting(at: Places, s: Ptr, x: Ptr): Places
    requires s in at.logs
  {
    at.(logs := at.logs[s := Waits(at.logs[s], x)], lock := at.lock[x := s])
  }

  lemma NewSound(m: Tasks, sems: map<Ptr, Sem>, h: Heads, current: Ptr, at: Places, s: Ptr, max: nat)
    requires Sound(m, sems, h, current, at, {}) && s !in sems
    ensures Sound(m, sems[s := Sem(max, 0, 0, 0)], h, current,
                  at.(logs := at.logs[s := Log([], multiset{}, [], [])]), {})
  {
    var sems', at' := sems[s := Sem(max, 0, 0, 0)], at.(logs := at.logs[s := Log([], multiset{}, [], [])]);
    forall r | r in sems'
      ensures SemOk(m, r, sems'[r], at'.logs[r], at'.lock, {})
    {
      assert r != s ==> SemOk(m, r, sems[r], at.logs[r], at.lock, {});
    }
    forall t | t in m
      ensures Placed(t, m[t].state, current, at')
    {
      assert Placed(t, m[t].state, current, at);
    }
  }

  lemma SemFacts(m: Tasks, sems: map<Ptr, Sem>, at: Places, s: Ptr)
    requires SemsOk(m, sems, at, {}) && s in sems
    ensures sems[s].first == 0 <==> at.logs[s].queue == []
    ensures at.logs[s].queue != [] ==>
              sems[s].last == LastOf(at.logs[s].queue) && Member(m, sems[s].last, 0, WAITING_FOR_LOCK)
    ensures SemCounts(sems[s], at.logs[s])
  {
    var q := at.logs[s].queue;
    assert SemOk(m, s, sems[s], at.logs[s], at.lock, {});
    assert q != [] ==> Member(m, q[0], At(q, 1), WAITING_FOR_LOCK);
    assert q != [] ==> Member(m, LastOf(q), At(q, |q|), WAITING_FOR_LOCK);
  }

  lemma TakenSound(m: Tasks, sems: map<Ptr, Sem>, h: Heads, current: Ptr, at: Places, s: Ptr, x: Ptr)
    requires Sound(m, sems, h, current, at, {}) && s in sems && sems[s].count < sems[s].max
    ensures Sound(m, CountedUp(sems, s), h, current, Logged(at, s, Grants(at.logs[s], x)), {})
  {
    SemFacts(m, sems, at, s);
    CountsKept(sems[s], at.logs[s], x, x);
    CountSound(m, sems, h, current, at, s, sems[s].count + 1, Grants(at.logs[s], x));
  }

  lemma FreedSound(m: Tasks, sems: map<Ptr, Sem>, h: Heads, current: Ptr, at: Places, s: Ptr, holder: Ptr)
    requires Sound(m, sems, h, current, at, {}) && s in sems && holder in at.logs[s].holders && at.logs[s].queue == []
    ensures Sound(m, CountedDown(sems, s), h, current, Logged(at, s, GivesBack(at.logs[s], holder)), {})
  {
    SemFacts(m, sems, at, s);
    CountsKept(sems[s], at.logs[s], holder, holder);
    CountSound(m, sems, h, current, at, s, sems[s].count - 1, GivesBack(at.logs[s], holder));
  }

  /** Memory and semaphore after a task was linked into the queue. */
  function EnqueuedMem(m: Tasks, sem: Sem, x: Ptr): Tasks
    requires x in m && (sem.first != 0 ==> sem.last in m)
  {
    var m1 := m[x := m[x].(next := 0)];
    if sem.first == 0 then m1 else m1[sem.last := m1[sem.last].(next := x)]
  }

  function EnqueuedSems(sems: map<Ptr, Sem>, s: Ptr, x: Ptr): map<Ptr, Sem>
    requires s in sems
  {
    var sems1 := if sems[s].first == 0 then sems[s := sems[s].(first := x)] else sems;
    sems1[s := sems1[s].(last := x)]
  }

  lemma EnqueueFacts(m: Tasks, sems: map<Ptr, Sem>, h: Heads, x: Ptr, at: Places, s: Ptr)
    requires Sound(m, sems, h, x, at, {}) && s in sems && x in m && m[x].state == RUNNING
    requires sems[s].count >= sems[s].max
    ensures sems[s].first != 0 ==> sems[s].last in m && sems[s].last != x
    ensures var m' := Stored(EnqueuedMem(m, sems[s], x), x, WAITING_FOR_LOCK);
            Sound(m', EnqueuedSems(sems, s, x), h, x, Waiting(at, s, x), {}) && SameData(m, m')
  {
    SemFacts(m, sems, at, s);
    ReadyEnds(m, sems, h, x, at, {});
    var sem := sems[s].(first := if at.logs[s].queue == [] then x else sems[s].first, last := x);
    var m' := Stored(EnqueuedMem(m, sems[s], x), x, WAITING_FOR_LOCK);
    EnqueueLinks(m, sems[s], at.logs[s].queue, x);
    WaiterSound(m, sems, h, x, at, s, x, m', sem);
    EnqueuedIs(sems, s, x, sem);
  }

  lemma EnqueuedIs(sems: map<Ptr, Sem>, s: Ptr, x: Ptr, sem: Sem)
    requires s in sems && sem == sems[s].(first := if sems[s].first == 0 then x else sems[s].first, last := x)
    ensures EnqueuedSems(sems, s, x) == sems[s := sem]
  {
  }

  lemma EnqueueLinks(m: Tasks, sem: Sem, q: seq<Ptr>, x: Ptr)
    requires x in m && x != 0 && m[x].state == RUNNING && (q == [] <==> sem.first == 0)
    requires q != [] ==> sem.last == LastOf(q) && sem.last in m && sem.last != x
    ensures var m' := Stored(EnqueuedMem(m, sem, x), x, WAITING_FOR_LOCK);
            SameData(m, m') && Linking(m, q, x, m') && Member(m', x, 0, WAITING_FOR_LOCK)
  {
  }

  /** Memory after a new task was queued. */
  function SpawnedMem(m: Tasks, first: Ptr, last: Ptr, x: Ptr): Tasks
    requires first != 0 ==> last in m
  {
    var m1 := m[x := Tcb(0, READY, 0, 0, false)];
    if first != 0 then m1[last := m1[last].(next := x)] else m1
  }

  lemma SpawnFacts(m: Tasks, sems: map<Ptr, Sem>, h: Heads, current: Ptr, at: Places, x: Ptr)
    requires Sound(m, sems, h, current, at, {}) && x != 0 && x !in m
    ensures h.first != 0 ==> h.last in m
    ensures var m' := SpawnedMem(m, h.first, h.last, x);
            && Sound(m', sems, h.(first := if h.first == 0 then x else h.first, last := x), current,
                     at.(ready := at.ready + [x]), {})
            && x in m' && m'[x].state == READY && m'.Keys == m.Keys + {x}
            && forall t | t in m :: m'[t].state == m[t].state && m'[t].ttn == m[t].ttn
  {
    ReadyEnds(m, sems, h, current, at, {});
    var m1 := m[x := Tcb(0, READY, 0, 0, false)];
    var m' := SpawnedMem(m, h.first, h.last, x);
    NewTaskSound(m, sems, h, current, at, x, m1);
    AppendedSound(m1, sems, h, current, at, {x}, x, m', h.(first := if h.first == 0 then x else h.first, last := x));
    assert {x} - {x} == {};
  }

  lemma NewTaskSound(m: Tasks, sems: map<Ptr, Sem>, h: Heads, current: Ptr, at: Places, x: Ptr, m': Tasks)
    requires Sound(m, sems, h, current, at, {}) && x != 0 && x !in m && m' == m[x := Tcb(0, READY, 0, 0, false)]
    ensures Sound(m', sems, h, current, at, {x})
  {
    OtherQueueKept(m, at.ready, h.first, READY, {}, m', x, x, {x});
    OtherQueueKept(m, at.asleep, h.sleeping, WAITING, {}, m', x, x, {x});
    OtherQueueKept(m, at.irqs, h.irqwaiting, WAITING_FOR_IRQ, {}, m', x, x, {x});
    SemsKept(m, sems, at, {}, m', x, x, {x});
    forall t | t in m' && t != x
      ensures Placed(t, m'[t].state, current, at)
    {
      assert Placed(t, m[t].state, current, at);
    }
  }

  lemma SomeHolder(m: Tasks, sems: map<Ptr, Sem>, at: Places, s: Ptr) returns (holder: Ptr)
    requires SemsOk(m, sems, at, {}) && s in sems && sems[s].count > 0
    ensures holder in at.logs[s].holders
  {
    SemFacts(m, sems, at, s);
    assert at.logs[s].holders != multiset{};
    holder :| holder in at.logs[s].holders;
  }

  lemma MovedStep(at: Places, q: seq<Ptr>, k: nat, next: nat, wake: set<Ptr>, stay: set<Ptr>)
    requires k < |q| && next == k + 1 && (q[k] in wake <==> q[k] !in stay)
    ensures var a, x := IrqsMoved(at, q[..k], wake, stay), q[k];
            IrqsMoved(at, q[..next], wake, stay) ==
            if x in wake then a.(ready := a.ready + [x]) else a.(irqs := [x] + a.irqs)
  {
    KeepMore(at.ready, q, k, next, wake);
    KeepMore([], q, k, next, stay);
  }

  lemma InTimedOut(m: Tasks, m': Tasks, time: nat, x: Ptr)
    requires SameData(m, m') && x in m
    ensures x in TimedOut(m, time) <==> m'[x].ttn <= time && m'[x].ttn != 0
    ensures x in TimedOut(m, time) <==> x !in Patient(m, time)
    ensures m[x].onTimeout == m'[x].onTimeout
  {
  }

  lemma InWaitFor(m: Tasks, m': Tasks, irq: nat, x: Ptr)
    requires SameData(m, m') && x in m
    ensures x in WaitFor(m, irq) <==> m'[x].irq == irq
    ensures x in WaitFor(m, irq) <==> x !in WaitForOthers(m, irq)
  {
  }

  /** Some task has a time-out that has come, but no function for it. */
  ghost predicate NoFunction(m: Tasks, q: seq<Ptr>, time: nat) {
    exists i :: 0 <= i < |q| && q[i] in TimedOut(m, time) && !m[q[i]].onTimeout
  }

  ghost predicate FunctionsUpTo(m: Tasks, q: seq<Ptr>, k: nat, time: nat) {
    forall i | 0 <= i < k && i < |q| :: q[i] in TimedOut(m, time) ==> m[q[i]].onTimeout
  }

  /** The places after a tick, before any switch. */
  function Ticked(at: Places, m: Tasks, time: nat): Places {
    IrqsMoved(SleepersWoken(at, at.asleep, m, time), at.irqs, TimedOut(m, time), Patient(m, time))
  }

  /** Who is ready after a tick and who waits on: it depends on the task's own time, and 0 stands for no time-out. */
  lemma TickedMeans(at: Places, m: Tasks, time: nat)
    requires forall x | x in at.asleep || x in at.irqs :: x in m
    ensures forall x :: x in Ticked(at, m, time).ready <==>
              || x in at.ready || (x in at.asleep && m[x].ttn <= time)
              || (x in at.irqs && 0 < m[x].ttn <= time)
    ensures forall x :: x in Ticked(at, m, time).asleep <==> x in at.asleep && time < m[x].ttn
    ensures forall x :: x in Ticked(at, m, time).irqs <==> x in at.irqs && (m[x].ttn == 0 || time < m[x].ttn)
    ensures at.ready <= Ticked(at, m, time).ready
  {
    KeepMeans(at.asleep, Due(m, time));
    KeepMeans(at.asleep, Later(m, time));
    KeepMeans(at.irqs, TimedOut(m, time));
    KeepMeans(at.irqs, Patient(m, time));
  }

  /** Who is ready after an interrupt. */
  lemma IrqsMean(at: Places, m: Tasks, irq: nat)
    requires forall x | x in at.irqs :: x in m
    ensures var at' := IrqsMoved(at, at.irqs, WaitFor(m, irq), WaitForOthers(m, irq));
            && (forall x :: x in at'.ready <==> x in at.ready || (x in at.irqs && m[x].irq == irq))
            && (forall x :: x in at'.irqs <==> x in at.irqs && m[x].irq != irq)
            && at.ready <= at'.ready
  {
    KeepMeans(at.irqs, WaitFor(m, irq));
    KeepMeans(at.irqs, WaitForOthers(m, irq));
  }

  /** It is remembered exactly when nobody waited for it. */
  lemma RememberedMeans(called: set<nat>, irq: nat, q: seq<Ptr>, m: Tasks)
    requires forall x | x in q :: x in m
    ensures Remembered(called, irq, q, m) == if exists x :: x in q && m[x].irq == irq then called else called + {irq}
  {
    KeepMeans(q, WaitFor(m, irq));
    var kept := Keep(q, WaitFor(m, irq));
    assert kept != [] ==> kept[0] in kept;
  }

  lemma SameTimes(m: Tasks, m': Tasks, q: seq<Ptr>, time: nat)
    requires SameData(m, m')
    ensures TimedOut(m', time) == TimedOut(m, time) && Patient(m', time) == Patient(m, time)
    ensures NoFunction(m', q, time) == NoFunction(m, q, time)
  {
  }

  lemma WokenStep(at: Places, q: seq<Ptr>, k: nat, next: nat, m: Tasks, m': Tasks, time: nat)
    requires k < |q| && next == k + 1 && SameData(m, m') && q[k] in m
    ensures var a, x := SleepersWoken(at, q[..k], m, time), q[k];
            SleepersWoken(at, q[..next], m, time) ==
            if m'[x].ttn <= time then a.(ready := a.ready + [x]) else a.(asleep := [x] + a.asleep)
  {
    KeepMore(at.ready, q, k, next, Due(m, time));
    KeepMore([], q, k, next, Later(m, time));
    InDue(m, m', time, q[k]);
  }

  lemma InDue(m: Tasks, m': Tasks, time: nat, x: Ptr)
    requires SameData(m, m') && x in m
    ensures x in Due(m, time) <==> m'[x].ttn <= time
    ensures x in Later(m, time) <==> m'[x].ttn > time
  {
  }

  lemma AllGone(m: Tasks, q: seq<Ptr>, k: nat, next: Ptr, st: State)
    requires LinkedFrom(m, q, k, next, st) && next == 0 && k <= |q|
    ensures k == |q| && Rest(q, k) == {} && q[..k] == q
  {
  }

  lemma HeadOf(m: Tasks, q: seq<Ptr>, k: nat, x: Ptr, st: State)
    requires LinkedFrom(m, q, k, x, st) && x != 0
    ensures k < |q| && x == q[k] && x in m && m[x].state == st && m[x].next != x && m[x].next == At(q, k + 1)
  {
    assert Member(m, q[k], At(q, k + 1), st);
  }

  /** The part of a list behind the task `x` is as it was. */
  lemma TailKept(m: Tasks, q: seq<Ptr>, k: nat, next: Ptr, st: State, m': Tasks, x: Ptr, l: Ptr)
    requires k < |q| && q[k] == x && LinkedFrom(m, q, k, x, st) && next == At(q, k + 1)
    requires Differ(m, m', x, l) && (l == x || (l in m && m[l].state != st))
    ensures LinkedFrom(m', q, k + 1, next, st)
  {
    assert forall i | k <= i < |q| :: Member(m, q[i], At(q, i + 1), st);
    assert LinkedFrom(m, q, k + 1, next, st);
    QueueApart(m, q, k + 1, next, st, m', x, l);
  }

  lemma Overwritten(m: Tasks, x: Ptr, a: Tcb, b: Tcb)
    ensures m[x := a][x := b] == m[x := b]
  {
  }

  /** Memory after an append to the ready queue. */
  function AppendedMem(m: Tasks, first: Ptr, last: Ptr, x: Ptr): Tasks
    requires x in m && (first != 0 ==> last in m)
  {
    var m1 := m[x := m[x].(state := READY)];
    if first == 0 then
      m1[x := m1[x].(next := 0)]
    else
      var m2 := m1[last := m1[last].(next := x)];
      m2[x := m2[x].(next := 0)]
  }

  lemma ReadyEnds(m: Tasks, sems: map<Ptr, Sem>, h: Heads, current: Ptr, at: Places, out: set<Ptr>)
    requires Sound(m, sems, h, current, at, out)
    ensures at.ready == [] <==> h.first == 0
    ensures at.ready != [] ==> h.last == LastOf(at.ready) && Member(m, h.last, 0, READY) && h.last !in out
    ensures 0 !in m
  {
    assert at.ready != [] ==> Member(m, at.ready[0], At(at.ready, 1), READY);
    assert at.ready != [] ==> Member(m, LastOf(at.ready), At(at.ready, |at.ready|), READY);
  }

  lemma NobodyRuns(m: Tasks, sems: map<Ptr, Sem>, h: Heads, current: Ptr, at: Places, t: Ptr)
    requires Sound(m, sems, h, current, at, {}) && current == 0 && t in m
    ensures m[t].state != RUNNING && 0 !in m
  {
    assert Placed(t, m[t].state, current, at);
  }

  lemma AppendFacts(m: Tasks, sems: map<Ptr, Sem>, h: Heads, current: Ptr, at: Places, out: set<Ptr>, x: Ptr)
    requires Sound(m, sems, h, current, at, out) && x in m && (x in out || m[x].state == RUNNING)
    ensures h.first != 0 ==> h.last in m && h.last != x
    ensures var m' := AppendedMem(m, h.first, h.last, x);
            && Sound(m', sems, h.(first := if h.first == 0 then x else h.first, last := x), current,
                     at.(ready := at.ready + [x]), out - {x})
            && SameData(m, m') && Linking(m, at.ready, x, m') && Member(m', x, 0, READY)
  {
    var m' := AppendedMem(m, h.first, h.last, x);
    ReadyEnds(m, sems, h, current, at, out);
    AppendLinks(m, at.ready, h.first, h.last, x);
    AppendedSound(m, sems, h, current, at, out, x, m', h.(first := if h.first == 0 then x else h.first, last := x));
  }

  lemma AppendLinks(m: Tasks, ready: seq<Ptr>, first: Ptr, last: Ptr, x: Ptr)
    requires x in m && x != 0 && (ready == [] <==> first == 0)
    requires ready != [] ==> last == LastOf(ready) && last in m && last != x
    ensures var m' := AppendedMem(m, first, last, x);
            SameData(m, m') && Linking(m, ready, x, m') && Member(m', x, 0, READY)
  {
  }

  /** Whatever the ready queue is, its last task links to nothing. */
  lemma LastHasNoNext(m: Tasks, sems: map<Ptr, Sem>, h: Heads, current: Ptr, at: Places, out: set<Ptr>, x: Ptr)
    requires Sound(m, sems, h, current, at, out) && x in m && x !in out && m[x].state == READY && h.last == x
    ensures m[x].next == 0
  {
    assert Placed(x, m[x].state, current, at);
    assert Member(m, at.ready[|at.ready| - 1], At(at.ready, |at.ready|), READY);
  }

  lemma EmptyHead(m: Tasks, sems: map<Ptr, Sem>, h: Heads, current: Ptr, at: Places, x: Ptr)
    requires Sound(m, sems, h, current, at, {}) && x in m
    ensures h.first == 0 ==> m[x].state != READY
  {
    assert Placed(x, m[x].state, current, at);
    assert at.ready != [] ==> Member(m, at.ready[0], At(at.ready, 1), READY);
  }

  /** Memory after `switch_to_task` put the task `c` behind the last one. */
  function RequeuedMem(m: Tasks, last: Ptr, c: Ptr): Tasks
    requires c in m && last in m
  {
    var m1 := m[c := m[c].(state := READY)];
    var m2 := m1[last := m1[last].(next := c)];
    m2[c := m2[c].(next := 0)]
  }

  /** For an empty queue the last task is the one that was just taken out. */
  lemma RequeueFacts(m: Tasks, sems: map<Ptr, Sem>, h: Heads, c: Ptr, at: Places, x: Ptr)
    requires Sound(m, sems, h, c, at, {x}) && x in m && c in m && c != x && m[c].state == RUNNING
    requires at.ready == [] ==> h.last == x
    ensures h.last in m && h.last != c
    ensures var m' := RequeuedMem(m, h.last, c);
            && Sound(m', sems, h.(last := c, first := if h.first == 0 then c else h.first), c,
                     at.(ready := at.ready + [c]), {x})
            && SameData(m, m') && Member(m', c, 0, READY)
            && forall t | t in m && t != c :: m'[t].state == m[t].state
  {
    var m' := RequeuedMem(m, h.last, c);
    var h' := h.(last := c, first := if h.first == 0 then c else h.first);
    ReadyEnds(m, sems, h, c, at, {x});
    RequeueLinks(m, h.last, c);
    assert {x} - {c} == {x};
    if at.ready == [] {
      var m1 := m[x := m[x].(next := c)];
      ApartSound(m, sems, h, c, at, x, m[x].(next := c));
      assert Linking(m1, at.ready, c, m');
      AppendedSound(m1, sems, h, c, at, {x}, c, m', h');
    } else {
      AppendedSound(m, sems, h, c, at, {x}, c, m', h');
    }
  }

  lemma RequeueLinks(m: Tasks, last: Ptr, c: Ptr)
    requires c in m && c != 0 && last in m && last != c
    ensures var m' := RequeuedMem(m, last, c);
            && SameData(m, m') && Member(m', c, 0, READY) && Differ(m, m', c, last)
            && m'[last] == m[last].(next := c)
            && forall t | t in m && t != c :: m'[t].state == m[t].state
  {
  }

  lemma AsWrittenFacts(m: Tasks, sems: map<Ptr, Sem>, h: Heads, c: Ptr, at: Places, x: Ptr)
    requires Sound(m, sems, h, c, at, {x}) && x in m && c in m && c != x && m[c].state != READY
    requires at.ready == [] ==> h.last == x
    ensures m[c].state == RUNNING ==> h.last in m
    ensures var lost := m[c].state == RUNNING && h.first == 0;
            var m1 := if m[c].state == RUNNING then RequeuedMem(m, h.last, c) else m;
            var h1 := if m[c].state == RUNNING then h.(last := c) else h;
            Placeable(m1[x := m1[x].(state := RUNNING)], sems, h1, x, {}) <==> !lost
  {
    if m[c].state != RUNNING {
      RunningSound(m, sems, h, c, at, x);
      assert Sound(m[x := m[x].(state := RUNNING)], sems, h, x, at, {});
    } else {
      RequeueFacts(m, sems, h, c, at, x);
      var m1, h1 := RequeuedMem(m, h.last, c), h.(last := c);
      var m2 := m1[x := m1[x].(state := RUNNING)];
      if h.first != 0 {
        RunningSound(m1, sems, h1, c, at.(ready := at.ready + [c]), x);
        assert Sound(m2, sems, h1, x, at.(ready := at.ready + [c]), {});
      }
      forall p: Places | Sound(m2, sems, h1, x, p, {})
        ensures h.first != 0
      {
        EmptyHead(m2, sems, h1, x, p, c);
      }
    }
  }

  /** Memory after `unblock_task` put the task `x` behind the last one without clearing its link. */
  function RawMem(m: Tasks, first: Ptr, last: Ptr, x: Ptr): Tasks
    requires x in m && (first != 0 ==> last in m)
  {
    var m1 := m[x := m[x].(state := READY)];
    if first == 0 then m1[x := m1[x].(next := 0)] else m1[last := m1[last].(next := x)]
  }

  lemma RawFacts(m: Tasks, sems: map<Ptr, Sem>, h: Heads, current: Ptr, at: Places, out: set<Ptr>, x: Ptr)
    requires Sound(m, sems, h, current, at, out) && x in m && x in out
    ensures h.first != 0 ==> h.last in m && h.last != x
    ensures var h' := h.(first := if h.first == 0 then x else h.first, last := x);
            Placeable(RawMem(m, h.first, h.last, x), sems, h', current, out - {x}) <==>
            m[x].next == 0 || h.first == 0
  {
    var h' := h.(first := if h.first == 0 then x else h.first, last := x);
    AppendFacts(m, sems, h, current, at, out, x);
    var m' := RawMem(m, h.first, h.last, x);
    if m[x].next == 0 || h.first == 0 {
      assert m' == AppendedMem(m, h.first, h.last, x);
      assert Sound(m', sems, h', current, at.(ready := at.ready + [x]), out - {x});
    }
    forall p: Places | Sound(m', sems, h', current, p, out - {x})
      ensures m'[x].next == 0
    {
      LastHasNoNext(m', sems, h', current, p, out - {x}, x);
    }
  }
}
