/** Task control blocks, semaphores and the queues that link tasks through their `next` fields (headers/proc.h). */
module TaskQueues {

  /** Addresses; 0 is NULL. */
  type Ptr = nat

  datatype State = RUNNING | READY | WAITING | WAITING_FOR_IRQ | WAITING_FOR_LOCK

  /** A thread control block; `onTimeout` says whether its timeout function is set. */
  datatype Tcb = Tcb(next: Ptr, state: State, ttn: nat, irq: nat, onTimeout: bool)

  type Tasks = map<Ptr, Tcb>

  datatype Sem = Sem(max: nat, count: int, first: Ptr, last: Ptr)

  /** What happened at a semaphore: who waits, who holds permits, who ever asked and who ever got one, in order. */
  datatype Log = Log(queue: seq<Ptr>, holders: multiset<Ptr>, arrivals: seq<Ptr>, grants: seq<Ptr>)

  function At(q: seq<Ptr>, i: nat): Ptr {
    if i < |q| then q[i] else 0
  }

  function LastOf(q: seq<Ptr>): Ptr
    requires q != []
  {
    q[|q| - 1]
  }

  ghost predicate Distinct(q: seq<Ptr>) {
    forall i, j | 0 <= i < j < |q| :: q[i] != q[j]
  }

  predicate Member(m: Tasks, t: Ptr, next: Ptr, st: State) {
    t != 0 && t in m && m[t].next == next && m[t].state == st
  }

  /** The `next` fields lead through exactly the tasks of `q`, from position `k` on, and end with NULL. */
  ghost predicate LinkedFrom(m: Tasks, q: seq<Ptr>, k: nat, head: Ptr, st: State) {
    && head == At(q, k)
    && (forall i {:trigger q[i]} | k <= i < |q| :: Member(m, q[i], At(q, i + 1), st))
    && Distinct(q)
  }

  ghost predicate Queue(m: Tasks, q: seq<Ptr>, head: Ptr, st: State) {
    LinkedFrom(m, q, 0, head, st)
  }

  /** A queue of tasks that are not among the ones set apart. */
  ghost predicate QueueOk(m: Tasks, q: seq<Ptr>, head: Ptr, st: State, out: set<Ptr>) {
    Queue(m, q, head, st) && forall i | 0 <= i < |q| :: q[i] !in out
  }

  /**
   * A semaphore: its queue, the bounds of its count, as many permits out as the count says, nobody waiting while a
   * permit is free, and permits handed out in the order of asking.
   */
  ghost predicate SemOk(m: Tasks, s: Ptr, sem: Sem, log: Log, lock: map<Ptr, Ptr>, out: set<Ptr>) {
    && QueueOk(m, log.queue, sem.first, WAITING_FOR_LOCK, out)
    && (log.queue != [] ==> sem.last == LastOf(log.queue))
    && (forall i | 0 <= i < |log.queue| :: InLock(lock, log.queue[i], s))
    && SemCounts(sem, log)
  }

  ghost predicate SemCounts(sem: Sem, log: Log) {
    && 0 <= sem.count <= sem.max && sem.count == |log.holders|
    && (log.queue != [] ==> sem.count == sem.max)
    && log.arrivals == log.grants + log.queue
  }

  ghost predicate SemsOk(m: Tasks, sems: map<Ptr, Sem>, at: Places, out: set<Ptr>) {
    && at.logs.Keys == sems.Keys
    && forall s {:trigger SemOk(m, s, sems[s], at.logs[s], at.lock, out)} | s in sems ::
         SemOk(m, s, sems[s], at.logs[s], at.lock, out)
  }

  predicate InLock(lock: map<Ptr, Ptr>, t: Ptr, s: Ptr) {
    t in lock && lock[t] == s
  }

  /** Where the tasks are. */
  datatype Places =
    Places(ready: seq<Ptr>, asleep: seq<Ptr>, irqs: seq<Ptr>, logs: map<Ptr, Log>, lock: map<Ptr, Ptr>)

  /** Task `t` is where its state says. */
  ghost predicate Placed(t: Ptr, st: State, current: Ptr, at: Places) {
    match st
    case RUNNING => t == current
    case READY => t in at.ready
    case WAITING => t in at.asleep
    case WAITING_FOR_IRQ => t in at.irqs
    case WAITING_FOR_LOCK => t in at.lock && at.lock[t] in at.logs && t in at.logs[at.lock[t]].queue
  }

  ghost predicate AllPlaced(m: Tasks, current: Ptr, at: Places, out: set<Ptr>) {
    && 0 !in m
    && forall t {:trigger Placed(t, m[t].state, current, at)} | t in m && t !in out ::
         Placed(t, m[t].state, current, at)
  }

  /** The heads of the lists, and the task inside the idle loop if there ever was one. */
  datatype Heads = Heads(first: Ptr, last: Ptr, sleeping: Ptr, irqwaiting: Ptr, idler: Ptr)

  ghost predicate ReadyOk(m: Tasks, ready: seq<Ptr>, first: Ptr, last: Ptr, out: set<Ptr>) {
    QueueOk(m, ready, first, READY, out) && (ready != [] ==> last == LastOf(ready))
  }

  /** Every task but those in `out`, which are in no queue, is in exactly the place that its state names. */
  ghost predicate Sound(m: Tasks, sems: map<Ptr, Sem>, h: Heads, current: Ptr, at: Places, out: set<Ptr>) {
    match h
    case Heads(first, last, sleeping, irqwaiting, idler) =>
      && ReadyOk(m, at.ready, first, last, out)
      && QueueOk(m, at.asleep, sleeping, WAITING, out)
      && QueueOk(m, at.irqs, irqwaiting, WAITING_FOR_IRQ, out)
      && SemsOk(m, sems, at, out)
      && AllPlaced(m, current, at, out)
      && (idler == 0 || idler in m)
  }

  /** `m'` differs from `m` in the tasks `x` and `l` at most. */
  ghost predicate Differ(m: Tasks, m': Tasks, x: Ptr, l: Ptr) {
    && m'.Keys == m.Keys + {x}
    && forall t | t in m && t != x && t != l :: m'[t] == m[t]
  }

  lemma QueueApart(m: Tasks, q: seq<Ptr>, k: nat, head: Ptr, st: State, m': Tasks, x: Ptr, l: Ptr)
    requires LinkedFrom(m, q, k, head, st) && Differ(m, m', x, l)
    requires forall i | k <= i < |q| :: q[i] != x && q[i] != l
    ensures LinkedFrom(m', q, k, head, st)
  {
    forall i | k <= i < |q|
      ensures Member(m', q[i], At(q, i + 1), st)
    {
    }
  }

  /** A queue of a state that neither changed task had is kept. */
  lemma OtherQueueKept(m: Tasks, q: seq<Ptr>, head: Ptr, st: State, out: set<Ptr>, m': Tasks, x: Ptr, l: Ptr,
                       out': set<Ptr>)
    requires QueueOk(m, q, head, st, out) && Differ(m, m', x, l) && out' <= out + {x}
    requires x in out || x !in m || m[x].state != st
    requires l == x || (l in m && m[l].state != st)
    ensures QueueOk(m', q, head, st, out')
  {
    QueueApart(m, q, 0, head, st, m', x, l);
  }

  lemma SemsKept(m: Tasks, sems: map<Ptr, Sem>, at: Places, out: set<Ptr>, m': Tasks, x: Ptr, l: Ptr, out': set<Ptr>)
    requires SemsOk(m, sems, at, out) && Differ(m, m', x, l) && out' <= out + {x}
    requires x in out || x !in m || m[x].state != WAITING_FOR_LOCK
    requires l == x || (l in m && m[l].state != WAITING_FOR_LOCK)
    ensures SemsOk(m', sems, at, out')
  {
    forall s | s in sems
      ensures SemOk(m', s, sems[s], at.logs[s], at.lock, out')
    {
      assert SemOk(m, s, sems[s], at.logs[s], at.lock, out);
      OtherQueueKept(m, at.logs[s].queue, sems[s].first, WAITING_FOR_LOCK, out, m', x, l, out');
    }
  }

  /** `m'` has task `x` behind the last task of the queue. */
  ghost predicate Linking(m: Tasks, q: seq<Ptr>, x: Ptr, m': Tasks) {
    && Differ(m, m', x, if q == [] then x else LastOf(q))
    && (q != [] ==> LastOf(q) in m && m'[LastOf(q)] == m[LastOf(q)].(next := x))
  }

  lemma Appended(m: Tasks, q: seq<Ptr>, head: Ptr, st: State, x: Ptr, m': Tasks)
    requires Queue(m, q, head, st) && x != 0 && x !in q && Linking(m, q, x, m') && Member(m', x, 0, st)
    ensures Queue(m', q + [x], if q == [] then x else head, st)
  {
    forall i | 0 <= i < |q + [x]|
      ensures Member(m', (q + [x])[i], At(q + [x], i + 1), st)
    {
      assert i < |q| ==> Member(m, q[i], At(q, i + 1), st);
    }
  }

  lemma AppendedReady(m: Tasks, ready: seq<Ptr>, first: Ptr, last: Ptr, out: set<Ptr>, x: Ptr, m': Tasks, first': Ptr)
    requires ReadyOk(m, ready, first, last, out) && x != 0 && (x in out || (x in m && m[x].state != READY))
    requires Linking(m, ready, x, m') && Member(m', x, 0, READY) && first' == if ready == [] then x else first
    ensures ReadyOk(m', ready + [x], first', x, out - {x})
  {
    assert forall i | 0 <= i < |ready| :: Member(m, ready[i], At(ready, i + 1), READY);
    Appended(m, ready, first, READY, x, m');
  }

  lemma ReadyPlaced(m: Tasks, current: Ptr, at: Places, out: set<Ptr>, x: Ptr, m': Tasks)
    requires AllPlaced(m, current, at, out) && x != 0
    requires Linking(m, at.ready, x, m') && Member(m', x, 0, READY)
    ensures AllPlaced(m', current, at.(ready := at.ready + [x]), out - {x})
  {
    var at' := at.(ready := at.ready + [x]);
    forall t | t in m' && t !in out - {x}
      ensures Placed(t, m'[t].state, current, at')
    {
      assert t != x ==> Placed(t, m[t].state, current, at) && m'[t].state == m[t].state;
    }
  }

  /** Appending to the ready queue keeps everything sound. */
  lemma AppendedSound(m: Tasks, sems: map<Ptr, Sem>, h: Heads, current: Ptr, at: Places, out: set<Ptr>, x: Ptr,
                      m': Tasks, h': Heads)
    requires Sound(m, sems, h, current, at, out) && x != 0 && (x in out || (x in m && m[x].state == RUNNING))
    requires Linking(m, at.ready, x, m') && Member(m', x, 0, READY)
    requires h' == h.(first := if at.ready == [] then x else h.first, last := x)
    ensures Sound(m', sems, h', current, at.(ready := at.ready + [x]), out - {x})
  {
    AppendedReady(m, at.ready, h.first, h.last, out, x, m', h'.first);
    var l := if at.ready == [] then x else LastOf(at.ready);
    assert at.ready != [] ==> Member(m, LastOf(at.ready), 0, READY);
    OtherQueueKept(m, at.asleep, h.sleeping, WAITING, out, m', x, l, out - {x});
    OtherQueueKept(m, at.irqs, h.irqwaiting, WAITING_FOR_IRQ, out, m', x, l, out - {x});
    SemsKept(m, sems, at, out, m', x, l, out - {x});
    SemsMoved(m', sems, at, at.(ready := at.ready + [x]), out - {x});
    ReadyPlaced(m, current, at, out, x, m');
  }

  /** Taking the first ready task out. */
  lemma PoppedSound(m: Tasks, sems: map<Ptr, Sem>, h: Heads, current: Ptr, at: Places)
    requires Sound(m, sems, h, current, at, {}) && at.ready != []
    ensures h.first == at.ready[0] && h.first in m && m[h.first].state == READY
    ensures Sound(m, sems, h.(first := m[h.first].next), current, at.(ready := at.ready[1..]), {h.first})
  {
    Popped(m, at.ready, h.first, READY);
    assert Member(m, at.ready[0], At(at.ready, 1), READY);
    var at', out := at.(ready := at.ready[1..]), {h.first};
    QueueNarrowed(m, at.asleep, h.sleeping, WAITING, h.first);
    QueueNarrowed(m, at.irqs, h.irqwaiting, WAITING_FOR_IRQ, h.first);
    forall s | s in sems
      ensures SemOk(m, s, sems[s], at.logs[s], at.lock, out)
    {
      assert SemOk(m, s, sems[s], at.logs[s], at.lock, {});
      QueueNarrowed(m, at.logs[s].queue, sems[s].first, WAITING_FOR_LOCK, h.first);
    }
    forall t | t in m && t !in out
      ensures Placed(t, m[t].state, current, at')
    {
      assert Placed(t, m[t].state, current, at);
    }
  }

  lemma QueueNarrowed(m: Tasks, q: seq<Ptr>, head: Ptr, st: State, x: Ptr)
    requires QueueOk(m, q, head, st, {}) && x in m && m[x].state != st
    ensures QueueOk(m, q, head, st, {x})
  {
  }

  /** A task that is in no queue becomes the current one, when none is running. */
  lemma RunningSound(m: Tasks, sems: map<Ptr, Sem>, h: Heads, current: Ptr, at: Places, x: Ptr)
    requires Sound(m, sems, h, current, at, {x}) && x in m
    requires (current in m && current != x ==> m[current].state != RUNNING)
    ensures Sound(m[x := m[x].(state := RUNNING)], sems, h, x, at, {})
  {
    var m' := m[x := m[x].(state := RUNNING)];
    OtherQueueKept(m, at.ready, h.first, READY, {x}, m', x, x, {});
    OtherQueueKept(m, at.asleep, h.sleeping, WAITING, {x}, m', x, x, {});
    OtherQueueKept(m, at.irqs, h.irqwaiting, WAITING_FOR_IRQ, {x}, m', x, x, {});
    SemsKept(m, sems, at, {x}, m', x, x, {});
    forall t | t in m'
      ensures Placed(t, m'[t].state, x, at)
    {
      assert t != x ==> Placed(t, m[t].state, current, at);
    }
  }

  /** The current task goes idle after it was blocked. */
  lemma IdleSound(m: Tasks, sems: map<Ptr, Sem>, h: Heads, current: Ptr, at: Places, current': Ptr)
    requires Sound(m, sems, h, current, at, {}) && (current in m ==> m[current].state != RUNNING)
    ensures Sound(m, sems, h, current', at, {})
  {
    forall t | t in m
      ensures Placed(t, m[t].state, current', at)
    {
      assert Placed(t, m[t].state, current, at);
    }
  }

  /** A task goes to the front of the sleeping list. */
  lemma SleeperSound(m: Tasks, sems: map<Ptr, Sem>, h: Heads, current: Ptr, at: Places, out: set<Ptr>, x: Ptr, c: Tcb)
    requires Sound(m, sems, h, current, at, out) && x in m && (x in out || m[x].state == RUNNING)
    requires c.next == h.sleeping && c.state == WAITING
    ensures Sound(m[x := c], sems, h.(sleeping := x), current, at.(asleep := [x] + at.asleep), out - {x})
  {
    var m', at', out' := m[x := c], at.(asleep := [x] + at.asleep), out - {x};
    assert x !in at.asleep by {
      assert forall i | 0 <= i < |at.asleep| :: Member(m, at.asleep[i], At(at.asleep, i + 1), WAITING);
    }
    Pushed(m, at.asleep, h.sleeping, WAITING, x, c);
    OtherQueueKept(m, at.ready, h.first, READY, out, m', x, x, out');
    OtherQueueKept(m, at.irqs, h.irqwaiting, WAITING_FOR_IRQ, out, m', x, x, out');
    SemsKept(m, sems, at, out, m', x, x, out');
    SemsMoved(m', sems, at, at', out');
    forall t | t in m' && t !in out'
      ensures Placed(t, m'[t].state, current, at')
    {
      assert t != x ==> Placed(t, m[t].state, current, at);
    }
  }

  /** A task goes to the front of the list of those waiting for an interrupt. */
  lemma IrqWaiterSound(m: Tasks, sems: map<Ptr, Sem>, h: Heads, current: Ptr, at: Places, out: set<Ptr>, x: Ptr, c: Tcb)
    requires Sound(m, sems, h, current, at, out) && x in m && (x in out || m[x].state == RUNNING)
    requires c.next == h.irqwaiting && c.state == WAITING_FOR_IRQ
    ensures Sound(m[x := c], sems, h.(irqwaiting := x), current, at.(irqs := [x] + at.irqs), out - {x})
  {
    var m', at', out' := m[x := c], at.(irqs := [x] + at.irqs), out - {x};
    assert x !in at.irqs by {
      assert forall i | 0 <= i < |at.irqs| :: Member(m, at.irqs[i], At(at.irqs, i + 1), WAITING_FOR_IRQ);
    }
    Pushed(m, at.irqs, h.irqwaiting, WAITING_FOR_IRQ, x, c);
    OtherQueueKept(m, at.ready, h.first, READY, out, m', x, x, out');
    OtherQueueKept(m, at.asleep, h.sleeping, WAITING, out, m', x, x, out');
    SemsKept(m, sems, at, out, m', x, x, out');
    SemsMoved(m', sems, at, at', out');
    forall t | t in m' && t !in out'
      ensures Placed(t, m'[t].state, current, at')
    {
      assert t != x ==> Placed(t, m[t].state, current, at);
    }
  }

  /** The tasks of a queue from position `k` on. */
  function Rest(q: seq<Ptr>, k: nat): set<Ptr> {
    set i | k <= i < |q| :: q[i]
  }

  /** Taking a whole list apart sets its tasks aside. */
  lemma SleepersOut(m: Tasks, sems: map<Ptr, Sem>, h: Heads, current: Ptr, at: Places)
    requires Sound(m, sems, h, current, at, {})
    ensures Sound(m, sems, h.(sleeping := 0), current, at.(asleep := []), Rest(at.asleep, 0))
  {
    var at', out := at.(asleep := []), Rest(at.asleep, 0);
    StateOut(m, at.asleep, h.sleeping, WAITING);
    QueueOut(m, at.ready, h.first, READY, out);
    QueueOut(m, at.irqs, h.irqwaiting, WAITING_FOR_IRQ, out);
    SemsOut(m, sems, at, at', out);
    forall t | t in m && t !in out
      ensures Placed(t, m[t].state, current, at')
    {
      assert Placed(t, m[t].state, current, at);
      assert t !in at.asleep;
    }
  }

  lemma IrqsOut(m: Tasks, sems: map<Ptr, Sem>, h: Heads, current: Ptr, at: Places)
    requires Sound(m, sems, h, current, at, {})
    ensures Sound(m, sems, h.(irqwaiting := 0), current, at.(irqs := []), Rest(at.irqs, 0))
  {
    var at', out := at.(irqs := []), Rest(at.irqs, 0);
    StateOut(m, at.irqs, h.irqwaiting, WAITING_FOR_IRQ);
    QueueOut(m, at.ready, h.first, READY, out);
    QueueOut(m, at.asleep, h.sleeping, WAITING, out);
    SemsOut(m, sems, at, at', out);
    forall t | t in m && t !in out
      ensures Placed(t, m[t].state, current, at')
    {
      assert Placed(t, m[t].state, current, at);
      assert t !in at.irqs;
    }
  }

  lemma StateOut(m: Tasks, q: seq<Ptr>, head: Ptr, st: State)
    requires Queue(m, q, head, st)
    ensures forall t | t in Rest(q, 0) :: t in m && m[t].state == st
  {
    assert forall i | 0 <= i < |q| :: Member(m, q[i], At(q, i + 1), st);
  }

  lemma QueueOut(m: Tasks, q: seq<Ptr>, head: Ptr, st: State, out: set<Ptr>)
    requires QueueOk(m, q, head, st, {}) && forall t | t in out :: t in m && m[t].state != st
    ensures QueueOk(m, q, head, st, out)
  {
  }

  lemma SemsOut(m: Tasks, sems: map<Ptr, Sem>, at: Places, at': Places, out: set<Ptr>)
    requires SemsOk(m, sems, at, {}) && at'.logs == at.logs && at'.lock == at.lock
    requires forall t | t in out :: t in m && m[t].state != WAITING_FOR_LOCK
    ensures SemsOk(m, sems, at', out)
  {
    forall s | s in sems
      ensures SemOk(m, s, sems[s], at'.logs[s], at'.lock, out)
    {
      assert SemOk(m, s, sems[s], at.logs[s], at.lock, {});
      QueueOut(m, at.logs[s].queue, sems[s].first, WAITING_FOR_LOCK, out);
    }
  }

  /** One task less to go. */
  lemma RestStep(q: seq<Ptr>, k: nat, next: nat)
    requires Distinct(q) && k < |q| && next == k + 1
    ensures Rest(q, k) - {q[k]} == Rest(q, next) && q[k] in Rest(q, k)
  {
  }

  /** A task in no queue may change in any way. */
  lemma ApartSound(m: Tasks, sems: map<Ptr, Sem>, h: Heads, current: Ptr, at: Places, x: Ptr, c: Tcb)
    requires Sound(m, sems, h, current, at, {x}) && x in m
    ensures Sound(m[x := c], sems, h, current, at, {x})
  {
    var m' := m[x := c];
    OtherQueueKept(m, at.ready, h.first, READY, {x}, m', x, x, {x});
    OtherQueueKept(m, at.asleep, h.sleeping, WAITING, {x}, m', x, x, {x});
    OtherQueueKept(m, at.irqs, h.irqwaiting, WAITING_FOR_IRQ, {x}, m', x, x, {x});
    SemsKept(m, sems, at, {x}, m', x, x, {x});
    forall t | t in m' && t != x
      ensures Placed(t, m'[t].state, current, at)
    {
      assert Placed(t, m[t].state, current, at);
    }
  }

  /** Every task is in exactly one place, and its state says which. */
  lemma ExactlyOnePlace(m: Tasks, sems: map<Ptr, Sem>, h: Heads, current: Ptr, at: Places, t: Ptr)
    requires Sound(m, sems, h, current, at, {}) && t in m
    ensures t in at.ready <==> m[t].state == READY
    ensures t in at.asleep <==> m[t].state == WAITING
    ensures t in at.irqs <==> m[t].state == WAITING_FOR_IRQ
    ensures forall s | s in sems :: t in at.logs[s].queue <==> m[t].state == WAITING_FOR_LOCK && InLock(at.lock, t, s)
    ensures m[t].state == WAITING_FOR_LOCK ==> t in at.lock && at.lock[t] in sems
    ensures m[t].state == RUNNING ==> t == current
  {
    assert Placed(t, m[t].state, current, at);
    InQueue(m, at.ready, h.first, READY, t);
    InQueue(m, at.asleep, h.sleeping, WAITING, t);
    InQueue(m, at.irqs, h.irqwaiting, WAITING_FOR_IRQ, t);
    forall s | s in sems
      ensures t in at.logs[s].queue <==> m[t].state == WAITING_FOR_LOCK && InLock(at.lock, t, s)
    {
      assert SemOk(m, s, sems[s], at.logs[s], at.lock, {});
      InQueue(m, at.logs[s].queue, sems[s].first, WAITING_FOR_LOCK, t);
    }
  }

  lemma InQueue(m: Tasks, q: seq<Ptr>, head: Ptr, st: State, t: Ptr)
    requires Queue(m, q, head, st)
    ensures t in q ==> t in m && m[t].state == st
  {
    assert forall i | 0 <= i < |q| :: Member(m, q[i], At(q, i + 1), st);
  }

  /** The tasks of a queue that are in `s`, in order. */
  function Keep(q: seq<Ptr>, s: set<Ptr>): seq<Ptr> {
    if q == [] then [] else Keep(q[..|q| - 1], s) + if LastOf(q) in s then [LastOf(q)] else []
  }

  /** The same in reverse order. */
  function KeepBackwards(q: seq<Ptr>, s: set<Ptr>): seq<Ptr> {
    if q == [] then [] else (if LastOf(q) in s then [LastOf(q)] else []) + KeepBackwards(q[..|q| - 1], s)
  }

  /** Which tasks they keep. */
  lemma {:induction false} KeepMeans(q: seq<Ptr>, s: set<Ptr>)
    ensures forall x :: x in Keep(q, s) <==> x in q && x in s
    ensures forall x :: x in KeepBackwards(q, s) <==> x in q && x in s
  {
    if q != [] {
      KeepMeans(q[..|q| - 1], s);
      assert q == q[..|q| - 1] + [LastOf(q)];
    }
  }

  lemma KeepOne(a: seq<Ptr>, x: Ptr, s: set<Ptr>, w: seq<Ptr>)
    requires w == if x in s then [x] else []
    ensures Keep(a + [x], s) == Keep(a, s) + w && KeepBackwards(a + [x], s) == w + KeepBackwards(a, s)
  {
    assert (a + [x])[..|a|] == a;
  }

  lemma {:induction false} KeepSplit(a: seq<Ptr>, b: seq<Ptr>, s: set<Ptr>)
    ensures Keep(a + b, s) == Keep(a, s) + Keep(b, s)
    ensures KeepBackwards(a + b, s) == KeepBackwards(b, s) + KeepBackwards(a, s)
  {
    if b == [] {
      assert a + b == a;
    } else {
      var b0, x := b[..|b| - 1], LastOf(b);
      var w := if x in s then [x] else [];
      assert b == b0 + [x] && a + b == (a + b0) + [x];
      KeepSplit(a, b0, s);
      KeepOne(b0, x, s, w);
      KeepOne(a + b0, x, s, w);
      KeepJoin(Keep(a, s), Keep(b0, s), w, KeepBackwards(b0, s), KeepBackwards(a, s));
    }
  }

  lemma KeepJoin(a: seq<Ptr>, b: seq<Ptr>, w: seq<Ptr>, b': seq<Ptr>, a': seq<Ptr>)
    ensures (a + b) + w == a + (b + w) && w + (b' + a') == (w + b') + a'
  {
  }

  lemma KeepMore(before: seq<Ptr>, q: seq<Ptr>, k: nat, next: nat, s: set<Ptr>)
    requires k < |q| && next == k + 1
    ensures before + Keep(q[..next], s) ==
            if q[k] in s then (before + Keep(q[..k], s)) + [q[k]] else before + Keep(q[..k], s)
    ensures KeepBackwards(q[..next], s) ==
            if q[k] in s then [q[k]] + KeepBackwards(q[..k], s) else KeepBackwards(q[..k], s)
  {
    assert q[..next][..|q[..next]| - 1] == q[..k];
    var kept, x := Keep(q[..k], s), [q[k]];
    assert (before + kept) + x == before + (kept + x);
  }

  // Semaphores.

  /** The log after a task asked in vain. */
  function Waits(log: Log, x: Ptr): Log {
    log.(queue := log.queue + [x], arrivals := log.arrivals + [x])
  }

  /** The log after the task that waited longest took over a permit of `h`. */
  function HandsOver(log: Log, h: Ptr): Log
    requires log.queue != []
  {
    var x := log.queue[0];
    log.(queue := log.queue[1..], holders := log.holders - multiset{h} + multiset{x}, grants := log.grants + [x])
  }

  function Grants(log: Log, x: Ptr): Log {
    log.(holders := log.holders + multiset{x}, arrivals := log.arrivals + [x], grants := log.grants + [x])
  }

  function GivesBack(log: Log, h: Ptr): Log {
    log.(holders := log.holders - multiset{h})
  }

  lemma CountsKept(sem: Sem, log: Log, x: Ptr, h: Ptr)
    requires SemCounts(sem, log)
    ensures sem.count < sem.max ==> SemCounts(sem.(count := sem.count + 1), Grants(log, x))
    ensures sem.count == sem.max ==> SemCounts(sem, Waits(log, x))
    ensures h in log.holders && log.queue == [] ==> SemCounts(sem.(count := sem.count - 1), GivesBack(log, h))
    ensures h in log.holders && log.queue != [] ==> SemCounts(sem, HandsOver(log, h))
  {
    assert log.arrivals + [x] == (log.grants + [x]) + [] == log.grants + (log.queue + [x]) || log.queue != [];
    assert log.arrivals + [x] == log.grants + (log.queue + [x]);
    if log.queue != [] {
      assert log.queue == [log.queue[0]] + log.queue[1..];
      assert log.arrivals == (log.grants + [log.queue[0]]) + log.queue[1..];
    }
    if h in log.holders {
      assert |log.holders - multiset{h}| == |log.holders| - 1;
    }
  }

  /** A semaphore whose queue does not change. */
  lemma CountSound(m: Tasks, sems: map<Ptr, Sem>, h: Heads, current: Ptr, at: Places, s: Ptr, count: int, log: Log)
    requires Sound(m, sems, h, current, at, {}) && s in sems && log.queue == at.logs[s].queue
    requires SemCounts(sems[s].(count := count), log)
    ensures Sound(m, sems[s := sems[s].(count := count)], h, current, at.(logs := at.logs[s := log]), {})
  {
    var sems', at' := sems[s := sems[s].(count := count)], at.(logs := at.logs[s := log]);
    forall r | r in sems'
      ensures SemOk(m, r, sems'[r], at'.logs[r], at'.lock, {})
    {
      assert SemOk(m, r, sems[r], at.logs[r], at.lock, {});
    }
    forall t | t in m
      ensures Placed(t, m[t].state, current, at')
    {
      assert Placed(t, m[t].state, current, at);
    }
  }

  /** A task joins the queue of a semaphore. */
  lemma WaiterSound(m: Tasks, sems: map<Ptr, Sem>, h: Heads, current: Ptr, at: Places, s: Ptr, x: Ptr, m': Tasks,
                    sem': Sem)
    requires Sound(m, sems, h, current, at, {}) && s in sems && x in m && m[x].state == RUNNING
    requires sems[s].count == sems[s].max
    requires Linking(m, at.logs[s].queue, x, m') && Member(m', x, 0, WAITING_FOR_LOCK)
    requires sem' == sems[s].(first := if at.logs[s].queue == [] then x else sems[s].first, last := x)
    ensures Sound(m', sems[s := sem'], h, current,
                  at.(logs := at.logs[s := Waits(at.logs[s], x)], lock := at.lock[x := s]), {})
  {
    var q := at.logs[s].queue;
    var sems', at' := sems[s := sem'], at.(logs := at.logs[s := Waits(at.logs[s], x)], lock := at.lock[x := s]);
    var l := if q == [] then x else LastOf(q);
    assert SemOk(m, s, sems[s], at.logs[s], at.lock, {});
    assert q != [] ==> Member(m, LastOf(q), 0, WAITING_FOR_LOCK);
    OtherQueueKept(m, at.ready, h.first, READY, {}, m', x, l, {});
    OtherQueueKept(m, at.asleep, h.sleeping, WAITING, {}, m', x, l, {});
    OtherQueueKept(m, at.irqs, h.irqwaiting, WAITING_FOR_IRQ, {}, m', x, l, {});
    WaiterSems(m, sems, at, s, x, m', sem');
    forall t | t in m'
      ensures Placed(t, m'[t].state, current, at')
    {
      assert t != x ==> Placed(t, m[t].state, current, at) && m'[t].state == m[t].state;
    }
  }

  lemma WaiterSems(m: Tasks, sems: map<Ptr, Sem>, at: Places, s: Ptr, x: Ptr, m': Tasks, sem': Sem)
    requires SemsOk(m, sems, at, {}) && s in sems && x in m && m[x].state == RUNNING && x != 0
    requires sems[s].count == sems[s].max
    requires Linking(m, at.logs[s].queue, x, m') && Member(m', x, 0, WAITING_FOR_LOCK)
    requires sem' == sems[s].(first := if at.logs[s].queue == [] then x else sems[s].first, last := x)
    ensures SemsOk(m', sems[s := sem'], at.(logs := at.logs[s := Waits(at.logs[s], x)], lock := at.lock[x := s]), {})
  {
    var lock' := at.lock[x := s];
    assert SemOk(m, s, sems[s], at.logs[s], at.lock, {});
    WaiterJoined(m, s, sems[s], at.logs[s], at.lock, x, m', sem');
    forall r | r in sems && r != s
      ensures SemOk(m', r, sems[r], at.logs[r], lock', {})
    {
      assert SemOk(m, r, sems[r], at.logs[r], at.lock, {});
      OtherSemKept(m, r, sems[r], at.logs[r], at.lock, s, at.logs[s].queue, x, m');
    }
  }

  lemma WaiterJoined(m: Tasks, s: Ptr, sem: Sem, log: Log, lock: map<Ptr, Ptr>, x: Ptr, m': Tasks, sem': Sem)
    requires SemOk(m, s, sem, log, lock, {}) && x in m && m[x].state == RUNNING && x != 0 && sem.count == sem.max
    requires Linking(m, log.queue, x, m') && Member(m', x, 0, WAITING_FOR_LOCK)
    requires sem' == sem.(first := if log.queue == [] then x else sem.first, last := x)
    ensures SemOk(m', s, sem', Waits(log, x), lock[x := s], {})
  {
    assert forall i | 0 <= i < |log.queue| :: Member(m, log.queue[i], At(log.queue, i + 1), WAITING_FOR_LOCK);
    Appended(m, log.queue, sem.first, WAITING_FOR_LOCK, x, m');
    CountsKept(sem, log, x, x);
    forall i | 0 <= i < |log.queue + [x]|
      ensures InLock(lock[x := s], (log.queue + [x])[i], s)
    {
      assert i < |log.queue| ==> InLock(lock, log.queue[i], s);
    }
  }

  lemma OtherSemKept(m: Tasks, r: Ptr, sem: Sem, log: Log, lock: map<Ptr, Ptr>, s: Ptr, q: seq<Ptr>, x: Ptr, m': Tasks)
    requires SemOk(m, r, sem, log, lock, {}) && r != s && x in m && m[x].state == RUNNING
    requires Linking(m, q, x, m') && (q != [] ==> InLock(lock, LastOf(q), s))
    ensures SemOk(m', r, sem, log, lock[x := s], {})
  {
    var l := if q == [] then x else LastOf(q);
    var p := log.queue;
    assert forall i | 0 <= i < |p| :: Member(m, p[i], At(p, i + 1), WAITING_FOR_LOCK) && InLock(lock, p[i], r);
    QueueApart(m, p, 0, sem.first, WAITING_FOR_LOCK, m', x, l);
    forall i | 0 <= i < |p|
      ensures InLock(lock[x := s], p[i], r)
    {
    }
  }

  /** The task that waited longest leaves the queue of a semaphore with the permit of `holder`. */
  lemma HandOverSound(m: Tasks, sems: map<Ptr, Sem>, h: Heads, current: Ptr, at: Places, s: Ptr, holder: Ptr)
    requires Sound(m, sems, h, current, at, {}) && s in sems && at.logs[s].queue != []
    requires holder in at.logs[s].holders
    ensures var x := sems[s].first;
            && x == at.logs[s].queue[0] && x in m && m[x].state == WAITING_FOR_LOCK
            && Sound(m, sems[s := sems[s].(first := m[x].next)], h, current,
                     at.(logs := at.logs[s := HandsOver(at.logs[s], holder)]), {x})
  {
    assert SemOk(m, s, sems[s], at.logs[s], at.lock, {});
    Popped(m, at.logs[s].queue, sems[s].first, WAITING_FOR_LOCK);
    assert Member(m, at.logs[s].queue[0], At(at.logs[s].queue, 1), WAITING_FOR_LOCK);
    var x := sems[s].first;
    var at' := at.(logs := at.logs[s := HandsOver(at.logs[s], holder)]);
    QueueNarrowed(m, at.ready, h.first, READY, x);
    QueueNarrowed(m, at.asleep, h.sleeping, WAITING, x);
    QueueNarrowed(m, at.irqs, h.irqwaiting, WAITING_FOR_IRQ, x);
    HandOverSems(m, sems, at, s, holder);
    forall t | t in m && t != x
      ensures Placed(t, m[t].state, current, at')
    {
      assert Placed(t, m[t].state, current, at);
    }
  }

  lemma HandOverSems(m: Tasks, sems: map<Ptr, Sem>, at: Places, s: Ptr, holder: Ptr)
    requires SemsOk(m, sems, at, {}) && s in sems && at.logs[s].queue != [] && holder in at.logs[s].holders
    ensures var x := sems[s].first;
            x in m && SemsOk(m, sems[s := sems[s].(first := m[x].next)],
                             at.(logs := at.logs[s := HandsOver(at.logs[s], holder)]), {x})
  {
    var x := sems[s].first;
    var log, log' := at.logs[s], HandsOver(at.logs[s], holder);
    assert SemOk(m, s, sems[s], log, at.lock, {});
    Popped(m, log.queue, x, WAITING_FOR_LOCK);
    CountsKept(sems[s], log, x, holder);
    assert InLock(at.lock, log.queue[0], s);
    forall i | 0 <= i < |log'.queue|
      ensures InLock(at.lock, log'.queue[i], s)
    {
      assert InLock(at.lock, log.queue[i + 1], s);
    }
    forall r | r in sems && r != s
      ensures SemOk(m, r, sems[r], at.logs[r], at.lock, {x})
    {
      assert SemOk(m, r, sems[r], at.logs[r], at.lock, {});
      var p := at.logs[r].queue;
      assert forall i | 0 <= i < |p| :: InLock(at.lock, p[i], r);
    }
  }

  /** With a single permit two holders are the same holder. */
  lemma MutualExclusion(m: Tasks, s: Ptr, sem: Sem, log: Log, lock: map<Ptr, Ptr>, a: Ptr, b: Ptr)
    requires SemOk(m, s, sem, log, lock, {}) && sem.max == 1 && a in log.holders && b in log.holders
    ensures a == b && log.holders == multiset{a} && sem.count == 1
  {
    var rest := log.holders - multiset{a};
    assert |rest| == |log.holders| - 1;
    assert |rest| == 0;
    assert rest == multiset{};
    assert log.holders == rest + multiset{a};
  }

  lemma SemsMoved(m: Tasks, sems: map<Ptr, Sem>, at: Places, at': Places, out: set<Ptr>)
    requires SemsOk(m, sems, at, out) && at'.logs == at.logs && at'.lock == at.lock
    ensures SemsOk(m, sems, at', out)
  {
  }

  lemma Pushed(m: Tasks, q: seq<Ptr>, head: Ptr, st: State, x: Ptr, c: Tcb)
    requires Queue(m, q, head, st) && x != 0 && x !in q && c.next == head && c.state == st
    ensures Queue(m[x := c], [x] + q, x, st)
  {
    forall i | 0 <= i < |q| + 1
      ensures Member(m[x := c], ([x] + q)[i], At([x] + q, i + 1), st)
    {
      assert i > 0 ==> Member(m, q[i - 1], At(q, i), st);
    }
  }

  lemma Popped(m: Tasks, q: seq<Ptr>, head: Ptr, st: State)
    requires Queue(m, q, head, st) && q != []
    ensures head == q[0] && head in m && Queue(m, q[1..], m[head].next, st) && head !in q[1..]
    ensures q[1..] != [] ==> LastOf(q[1..]) == LastOf(q)
  {
    var rest := q[1..];
    forall i | 0 <= i < |rest|
      ensures Member(m, rest[i], At(rest, i + 1), st)
    {
      assert Member(m, q[i + 1], At(q, i + 2), st);
    }
    assert Member(m, q[0], At(q, 1), st);
  }
}
