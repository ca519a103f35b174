/** The timer queue (server/engine/common/Timer.cpp): atomic steps under the lock; the
    handler of the picked timer runs while the lock is free. */
module Timer {
  datatype Instance = Instance(next: int, period: nat, running: bool)

  /** What the worker does: it looks at the queue, or a handler is in progress, or it has
      left its loop. */
  datatype Worker = Idle | Calling(id: nat) | Stopped

  /** A handler was started: whose, when, for when it was scheduled, and the times of all
      timers that were queued then. */
  datatype Firing = Firing(id: nat, now: int, next: int, queued: seq<int>)

  /** The place in the queue: behind everything that is not later. */
  function Place(queue: seq<nat>, active: map<nat, Instance>, t: int): (i: nat)
    requires forall id :: id in queue ==> id in active
    ensures i <= |queue|
    ensures (forall k :: 0 <= k < |queue| - 1 ==> active[queue[k]].next <= active[queue[k + 1]].next) ==>
      (i > 0 ==> active[queue[i - 1]].next <= t) && (i < |queue| ==> t < active[queue[i]].next)
  {
    if queue == [] then 0
    else if active[queue[|queue| - 1]].next <= t then |queue|
    else Place(queue[..|queue| - 1], active, t)
  }

  /** The ids whose instances are not due at t: what erase leaves. */
  function Without(queue: seq<nat>, active: map<nat, Instance>, t: int): (r: seq<nat>)
    requires forall id :: id in queue ==> id in active
    ensures forall id :: id in r <==> id in queue && active[id].next != t
  {
    if queue == [] then []
    else if active[queue[0]].next == t then Without(queue[1..], active, t)
    else [queue[0]] + Without(queue[1..], active, t)
  }

  predicate Distinct(queue: seq<nat>) {
    forall i, j :: 0 <= i < j < |queue| ==> queue[i] != queue[j]
  }

  predicate Ordered(queue: seq<nat>, active: map<nat, Instance>)
    requires forall id :: id in queue ==> id in active
  {
    forall i, j :: 0 <= i < j < |queue| ==> active[queue[i]].next <= active[queue[j]].next
  }

  lemma {:induction false} WithoutKeeps(queue: seq<nat>, active: map<nat, Instance>, t: int)
    requires (forall id :: id in queue ==> id in active) && Distinct(queue) && Ordered(queue, active)
    ensures Distinct(Without(queue, active, t)) && Ordered(Without(queue, active, t), active)
  {
    if queue != [] {
      assert Distinct(queue[1..]) && Ordered(queue[1..], active);
      WithoutKeeps(queue[1..], active, t);
      HeadFirst(queue, active);
      hide Distinct, Ordered;
      HeadBack(queue[0], Without(queue[1..], active, t), active);
    }
  }

  lemma HeadFirst(queue: seq<nat>, active: map<nat, Instance>)
    requires queue != [] && (forall id :: id in queue ==> id in active) && Distinct(queue) && Ordered(queue, active)
    ensures forall x :: x in queue[1..] ==> x != queue[0] && active[queue[0]].next <= active[x].next
  {
    forall x | x in queue[1..] ensures x != queue[0] && active[queue[0]].next <= active[x].next {
      var k :| 0 <= k < |queue[1..]| && queue[1..][k] == x;
      assert queue[k + 1] == x;
    }
  }

  lemma HeadBack(id: nat, r: seq<nat>, active: map<nat, Instance>)
    requires id in active && (forall x :: x in r ==> x in active && x != id && active[id].next <= active[x].next)
      && Distinct(r) && Ordered(r, active)
    ensures Distinct([id] + r) && Ordered([id] + r, active)
  {
  }

  lemma SameOrder(queue: seq<nat>, active: map<nat, Instance>, active': map<nat, Instance>)
    requires (forall y :: y in queue ==> y in active && y in active' && active'[y].next == active[y].next)
      && Ordered(queue, active)
    ensures Ordered(queue, active')
  {
  }

  /** An instance goes into the queue behind all that are not later. */
  function Insert(queue: seq<nat>, active: map<nat, Instance>, id: nat): seq<nat>
    requires id in active && forall y :: y in queue ==> y in active
  {
    var i := Place(queue, active, active[id].next);
    queue[..i] + [id] + queue[i..]
  }

  lemma InsertOk(queue: seq<nat>, active: map<nat, Instance>, id: nat)
    requires id in active && (forall y :: y in queue ==> y in active) && Distinct(queue) && Ordered(queue, active)
      && id !in queue
    ensures forall y :: y in Insert(queue, active, id) <==> y in queue || y == id
    ensures Distinct(Insert(queue, active, id)) && Ordered(Insert(queue, active, id), active)
  {
    hide Place;
    var i := Place(queue, active, active[id].next);
    InsertMembers(queue, i, id);
    InsertDistinct(queue, i, id);
    InsertOrdered(queue, active, i, id);
  }

  lemma InsertMembers(queue: seq<nat>, i: nat, id: nat)
    requires i <= |queue|
    ensures forall y :: y in queue[..i] + [id] + queue[i..] <==> y in queue || y == id
  {
    assert queue == queue[..i] + queue[i..];
  }

  lemma InsertDistinct(queue: seq<nat>, i: nat, id: nat)
    requires i <= |queue| && Distinct(queue) && id !in queue
    ensures Distinct(queue[..i] + [id] + queue[i..])
  {
  }

  lemma InsertOrdered(queue: seq<nat>, active: map<nat, Instance>, i: nat, id: nat)
    requires i <= |queue| && id in active && (forall y :: y in queue ==> y in active) && Ordered(queue, active)
    requires (i > 0 ==> active[queue[i - 1]].next <= active[id].next)
      && (i < |queue| ==> active[id].next < active[queue[i]].next)
    ensures (forall y :: y in queue[..i] + [id] + queue[i..] ==> y in active)
      && Ordered(queue[..i] + [id] + queue[i..], active)
  {
    hide Ordered;
    InsertMembers(queue, i, id);
    forall a, b | 0 <= a < b < |queue| + 1 { InsertPair(queue, active, i, id, a, b); }
    OrderIntro(queue[..i] + [id] + queue[i..], active);
  }

  lemma OrderIntro(q: seq<nat>, active: map<nat, Instance>)
    requires (forall y :: y in q ==> y in active) && forall a, b :: 0 <= a < b < |q| ==>
        active[q[a]].next <= active[q[b]].next
    ensures Ordered(q, active)
  {
  }

  lemma InsertPair(queue: seq<nat>, active: map<nat, Instance>, i: nat, id: nat, a: nat, b: nat)
    requires i <= |queue| && id in active && (forall y :: y in queue ==> y in active) && Ordered(queue, active)
      && a < b < |queue| + 1
    requires (i > 0 ==> active[queue[i - 1]].next <= active[id].next)
      && (i < |queue| ==> active[id].next < active[queue[i]].next)
    ensures var q := queue[..i] + [id] + queue[i..];
      q[a] in active && q[b] in active && active[q[a]].next <= active[q[b]].next
  {
    hide Ordered;
    InsertAt(queue, i, id, a);
    InsertAt(queue, i, id, b);
    if a < i <= b { OrderAt(queue, active, a, i - 1); }
    if a <= i < b { OrderAt(queue, active, i, b - 1); }
    if b < i { OrderAt(queue, active, a, b); }
    if i < a { OrderAt(queue, active, a - 1, b - 1); }
  }

  lemma InsertAt(queue: seq<nat>, i: nat, id: nat, a: nat)
    requires i <= |queue| && a < |queue| + 1
    ensures (queue[..i] + [id] + queue[i..])[a] == if a < i then queue[a] else if a == i then id else queue[a - 1]
  {
  }

  lemma OrderAt(queue: seq<nat>, active: map<nat, Instance>, a: nat, b: nat)
    requires (forall y :: y in queue ==> y in active) && Ordered(queue, active) && a <= b < |queue|
    ensures active[queue[a]].next <= active[queue[b]].next
  {
  }

  /** The k-th time of a periodic timer. */
  function Due(x: Instance, k: int): int {
    x.next + k * x.period
  }

  lemma DueIs(t: State, id: nat, k: int)
    requires id in t.created
    ensures Due(t.created[id], k) == t.created[id].next + k * t.created[id].period
  {
  }

  lemma DueNext(x: Instance, k: int)
    ensures Due(x, k) + x.period == Due(x, k + 1) && Due(x, 0) == x.next
  {
  }

  /** The fields of the timer and its history: the handlers started so far, each timer as
      it was created, how often it has been fired, and the timers destroyed, each with the
      number of firings before that; and the number of firings before the timer was stopped. */
  datatype State = State(nextId: nat, active: map<nat, Instance>, queue: seq<nat>, done: bool, worker: Worker,
                         fired: seq<Firing>, created: map<nat, Instance>, count: map<nat, nat>, destroyed: map<nat,
                           nat>, end: nat)

  /** The queue: instances of the active map in the order of their times. */
  ghost predicate QueueOk(t: State) {
    && (forall id :: id in t.queue ==> id in t.active && !t.active[id].running)
    && Distinct(t.queue) && Ordered(t.queue, t.active)
  }

  /** The times of the queued timers. */
  function Times(queue: seq<nat>, active: map<nat, Instance>): seq<int>
    requires forall id :: id in queue ==> id in active
  {
    seq(|queue|, i requires 0 <= i < |queue| => active[queue[i]].next)
  }

  /** Every active instance is queued or is the one the worker executes. */
  ghost predicate Queued(t: State) {
    forall id :: id in t.active && t.worker != Calling(id) ==> t.worker.Stopped? || id in t.queue
  }

  /** No instance is both queued and executed; its time is the first one plus as many
      periods as it has been fired: no drift. */
  ghost predicate ActiveOk(t: State, id: nat)
    requires id in t.active
  {
    && id in t.created && id in t.count && t.active[id].period == t.created[id].period
    && (t.worker != Calling(id) && t.active[id].running ==> t.worker.Stopped?)
    && (t.worker == Calling(id) ==> id !in t.queue && (!t.active[id].running <==> id in t.destroyed))
    && (id in t.queue ==>
        t.active[id].next == Due(t.created[id], t.count[id]) && (t.count[id] > 0 ==> t.created[id].period > 0))
    && (t.worker == Calling(id) ==> t.count[id] > 0 && t.active[id].next == Due(t.created[id], t.count[id] - 1))
  }

  /** A destroyed timer is gone, or waits for its handler to return; it is not fired again. */
  ghost predicate GoneOk(t: State, id: nat)
    requires id in t.destroyed
  {
    && id in t.created && t.destroyed[id] <= |t.fired| && id !in t.queue
    && (id in t.active ==> t.worker.Stopped? || t.worker == Calling(id))
    && (forall k :: t.destroyed[id] <= k < |t.fired| ==> t.fired[k].id != id)
  }

  ghost predicate CreatedOk(t: State, id: nat)
    requires id in t.created
  {
    && id < t.nextId && id in t.count && (t.created[id].period == 0 ==> t.count[id] <= 1)
    && t.count[id] == Firings(t.fired, id)
  }

  /** A handler is started when it is due, before all that are queued for later, the i-th
      time at its time plus i periods. */
  ghost predicate FiringOk(t: State, k: nat)
    requires k < |t.fired|
  {
    var f := t.fired[k];
    f.now >= f.next && (forall i :: 0 <= i < |f.queued| ==> f.next <= f.queued[i]) && f.id in t.created
      && f.next == Due(t.created[f.id], Firings(t.fired[..k], f.id))
  }

  /** How often the handler of id was started. */
  ghost function Firings(fired: seq<Firing>, id: nat): nat {
    if fired == [] then 0
    else Firings(fired[..|fired| - 1], id) + (if fired[|fired| - 1].id == id then 1 else 0)
  }

  /** After the timer was stopped no handler was started. */
  ghost predicate WorkerOk(t: State) {
    (t.worker.Stopped? ==> t.done) && (t.worker.Calling? ==> t.worker.id in t.active) && (t.done ==> |t.fired| == t.end)
  }

  ghost predicate Ok(t: State) {
    && QueueOk(t) && WorkerOk(t)
    && (forall id :: id in t.active ==> ActiveOk(t, id))
    && (forall id :: id in t.destroyed ==> GoneOk(t, id))
    && (forall id :: id in t.created ==> CreatedOk(t, id))
    && (forall k :: 0 <= k < |t.fired| ==> FiringOk(t, k))
  }

  lemma ActiveAt(t: State, id: nat)
    requires Ok(t)
    ensures id in t.active ==> ActiveOk(t, id)
    ensures id in t.created ==> CreatedOk(t, id)
    ensures id in t.destroyed ==> GoneOk(t, id)
    ensures QueueOk(t) && WorkerOk(t)
  {
  }

  lemma FiringAt(t: State, k: nat)
    requires Ok(t) && k < |t.fired|
    ensures FiringOk(t, k)
  {
  }

  // ----- the steps

  ghost function Created(t: State, x: Instance): State
    requires forall id :: id in t.queue ==> id in t.active
  {
    var id := t.nextId;
    t.(nextId := id + 1, active := t.active[id := x], queue := Insert(t.queue, t.active[id := x], id),
      created := t.created[id := x], count := t.count[id := 0])
  }

  lemma CreatedIsOk(t: State, x: Instance)
    requires Ok(t) && !x.running
    ensures QueueOk(t) && Ok(Created(t, x)) && t.nextId !in t.active && t.nextId in Created(t, x).queue
    ensures Queued(t) ==> Queued(Created(t, x))
  {
    hide Ok, Firings, Insert, Distinct, Ordered, Due;
    var id := t.nextId;
    ActiveAt(t, id);
    var t' := Created(t, x);
    NeverFired(t, id);
    SameOrder(t.queue, t.active, t'.active);
    InsertOk(t.queue, t'.active, id);
    DueNext(x, 0);
    forall y | y in t'.active ensures ActiveOk(t', y) { ActiveAt(t, y); }
    forall y | y in t'.destroyed ensures GoneOk(t', y) { ActiveAt(t, y); }
    forall y | y in t'.created ensures CreatedOk(t', y) { ActiveAt(t, y); }
    forall k | 0 <= k < |t'.fired| ensures FiringOk(t', k) { FiringAt(t, k); ActiveAt(t, t.fired[k].id); }
    OkIntro(t');
  }

  lemma OkIntro(t: State)
    requires QueueOk(t) && WorkerOk(t)
    requires (forall id :: id in t.active ==> ActiveOk(t, id)) && (forall id :: id in t.destroyed ==> GoneOk(t, id))
    requires (forall id :: id in t.created ==> CreatedOk(t, id)) && (forall k :: 0 <= k < |t.fired| ==> FiringOk(t, k))
    ensures Ok(t)
  {
  }

  lemma NeverFired(t: State, id: nat)
    requires Ok(t) && id !in t.created
    ensures Firings(t.fired, id) == 0 && id !in t.active && id !in t.destroyed
  {
    hide Ok;
    ActiveAt(t, id);
    forall k | 0 <= k < |t.fired| ensures t.fired[k].id != id { FiringAt(t, k); }
    NoFirings(t.fired, id);
  }

  lemma {:induction false} NoFirings(fired: seq<Firing>, id: nat)
    requires forall k :: 0 <= k < |fired| ==> fired[k].id != id
    ensures Firings(fired, id) == 0
  {
    if fired != [] { NoFirings(fired[..|fired| - 1], id); }
  }

  /** Under the lock an idle timer leaves the queue with all that are due at the same time. */
  ghost function Destroyed(t: State, id: nat): State
    requires id in t.active && forall x :: x in t.queue ==> x in t.active
  {
    if t.active[id].running then
      t.(active := t.active[id := t.active[id].(running := false)], destroyed := t.destroyed[id := |t.fired|])
    else t.(queue := Without(t.queue, t.active, t.active[id].next), active := t.active - {id},
      destroyed := t.destroyed[id := |t.fired|])
  }

  /** No other queued timer is due at the same time. */
  ghost predicate Alone(t: State, id: nat)
    requires id in t.active && forall x :: x in t.queue ==> x in t.active
  {
    forall x :: x in t.queue && x != id ==> t.active[x].next != t.active[id].next
  }

  /** destroy has not destroyed this timer before, or the worker has ended. */
  ghost predicate First(t: State, id: nat) {
    t.worker.Stopped? || id !in t.destroyed
  }

  /** Besides, the handler is in progress or no other timer is due at the same time. */
  ghost predicate Safe(t: State, id: nat)
    requires id in t.active && forall x :: x in t.queue ==> x in t.active
  {
    t.worker.Stopped? || (id !in t.destroyed && (t.active[id].running || Alone(t, id)))
  }

  /** destroy is harmless to what is started and when if and only if it is the first destroy
      of this timer. */
  lemma DestroyedIsOk(t: State, id: nat)
    requires Ok(t) && id in t.active
    ensures QueueOk(t) && (Ok(Destroyed(t, id)) <==> First(t, id))
  {
    hide Ok, Firings, Without, Due;
    ActiveAt(t, id);
    var t' := Destroyed(t, id);
    if First(t, id) {
      FirstIsOk(t, id);
    } else {
      if Ok(t') { ActiveAt(t', id); }
    }
  }

  /** destroy keeps every active timer queued or executed if and only if the handler is in
      progress or no other timer is due at the same time, and it is the first destroy. */
  lemma DestroyedIsQueued(t: State, id: nat)
    requires Ok(t) && Queued(t) && id in t.active
    ensures QueueOk(t) && (Ok(Destroyed(t, id)) && Queued(Destroyed(t, id)) <==> Safe(t, id))
  {
    hide Ok, Firings, Without, Due;
    ActiveAt(t, id);
    DestroyedIsOk(t, id);
    if First(t, id) && !Safe(t, id) {
      var x :| x in t.queue && x != id && t.active[x].next == t.active[id].next;
      ActiveAt(t, x);
      assert x in Destroyed(t, id).active && x !in Destroyed(t, id).queue;
    }
  }

  lemma FirstIsOk(t: State, id: nat)
    requires Ok(t) && QueueOk(t) && id in t.active && First(t, id)
    ensures Ok(Destroyed(t, id))
  {
    hide Ok, Firings, Without, Due;
    ActiveAt(t, id);
    var t' := Destroyed(t, id);
    WithoutKeeps(t.queue, t.active, t.active[id].next);
    hide Distinct, Ordered;
    FirstQueue(t, id);
    forall y | y in t'.active ensures ActiveOk(t', y) { ActiveAt(t, y); }
    forall y | y in t'.destroyed ensures GoneOk(t', y) { ActiveAt(t, y); }
    forall y | y in t'.created ensures CreatedOk(t', y) { ActiveAt(t, y); }
    forall k | 0 <= k < |t'.fired| ensures FiringOk(t', k) { FiringAt(t, k); }
    OkIntro(t');
  }

  lemma FirstQueue(t: State, id: nat)
    requires QueueOk(t) && id in t.active
    ensures QueueOk(Destroyed(t, id))
  {
    WithoutKeeps(t.queue, t.active, t.active[id].next);
    if t.active[id].running {
      SameOrder(t.queue, t.active, Destroyed(t, id).active);
    } else {
      SameOrder(Without(t.queue, t.active, t.active[id].next), t.active, Destroyed(t, id).active);
    }
  }

  ghost function Picked(t: State, now: int): State
    requires t.queue != [] && (forall x :: x in t.queue ==> x in t.active) && t.queue[0] in t.count
  {
    var id := t.queue[0];
    t.(queue := t.queue[1..], active := t.active[id := t.active[id].(running := true)], worker := Calling(id),
       fired := t.fired + [Firing(id, now, t.active[id].next, Times(t.queue, t.active))],
         count := t.count[id := t.count[id] + 1])
  }

  lemma PickedQueue(t: State, now: int)
    requires QueueOk(t) && t.queue != [] && t.queue[0] in t.count
    ensures QueueOk(Picked(t, now)) && (t.worker == Idle && Queued(t) ==> Queued(Picked(t, now)))
    ensures forall i :: 0 <= i < |t.queue| ==> t.active[t.queue[0]].next <= Times(t.queue, t.active)[i]
    ensures forall x :: x in Picked(t, now).queue <==> x in t.queue && x != t.queue[0]
    ensures forall x :: x in t.queue ==> x in t.active && t.active[t.queue[0]].next <= t.active[x].next
  {
    var t' := Picked(t, now);
    forall x | x in t'.queue ensures x in t.queue && x != t.queue[0] {
      var k :| 0 <= k < |t'.queue| && t'.queue[k] == x;
      assert t.queue[k + 1] == x;
    }
    forall x | x in t.queue && x != t.queue[0] ensures x in t'.queue { StillQueued(t.queue, x); }
  }

  lemma PickedIsOk(t: State, now: int)
    requires Ok(t) && t.worker == Idle && !t.done && t.queue != [] && t.queue[0] in t.active
      && now >= t.active[t.queue[0]].next
    ensures t.queue[0] in t.count && (forall x :: x in t.queue ==> x in t.active) && Ok(Picked(t, now))
      && t.queue[0] !in t.destroyed
    ensures Queued(t) ==> Queued(Picked(t, now))
    ensures forall x :: x in t.queue ==> x in t.active && t.active[t.queue[0]].next <= t.active[x].next
  {
    hide Ok, Due;
    var id := t.queue[0];
    ActiveAt(t, id);
    var t' := Picked(t, now);
    PickedQueue(t, now);
    hide Distinct, Ordered;
    assert t'.fired[..|t.fired|] == t.fired;
    forall y | y in t'.active ensures ActiveOk(t', y) {
      ActiveAt(t, y);
      if y in t.queue && y != id { StillQueued(t.queue, y); }
    }
    forall y | y in t'.destroyed ensures GoneOk(t', y) { ActiveAt(t, y); }
    forall y | y in t'.created ensures CreatedOk(t', y) { ActiveAt(t, y); }
    forall k | 0 <= k < |t'.fired| ensures FiringOk(t', k) {
      if k < |t.fired| { FiringAt(t, k); assert t'.fired[..k] == t.fired[..k]; }
    }
    OkIntro(t');
  }

  lemma StillQueued(queue: seq<nat>, y: nat)
    requires y in queue && queue[0] != y
    ensures y in queue[1..]
  {
  }

  ghost function Returned(t: State): State
    requires t.worker.Calling? && t.worker.id in t.active && forall x :: x in t.queue ==> x in t.active
  {
    var id := t.worker.id;
    var x := t.active[id];
    if t.done then t.(worker := Stopped)
    else if !x.running || x.period == 0 then t.(worker := Idle, active := t.active - {id})
    else
      var active := t.active[id := Instance(x.next + x.period, x.period, false)];
      t.(worker := Idle, active := active, queue := Insert(t.queue, active, id))
  }

  lemma ReturnedIsOk(t: State)
    requires Ok(t) && t.worker.Calling?
    ensures QueueOk(t) && t.worker.id in t.active && Ok(Returned(t)) && (Queued(t) ==> Queued(Returned(t)))
  {
    hide Ok, QueueOk, ActiveOk, GoneOk, CreatedOk, FiringOk, Returned;
    var id := t.worker.id;
    ActiveAt(t, id);
    WorkerAt(t);
    var t' := Returned(t);
    ReturnedQueue(t);
    forall y | y in t'.active ensures ActiveOk(t', y) { ReturnedActive(t, y); }
    forall y | y in t'.destroyed ensures GoneOk(t', y) { ReturnedGone(t, y); }
    forall y | y in t'.created ensures CreatedOk(t', y) { ReturnedCreated(t, y); }
    forall k | 0 <= k < |t'.fired| ensures FiringOk(t', k) { ReturnedFiring(t, k); }
    OkIntro(t');
  }

  /** The instance the worker executes is not queued. */
  lemma WorkerAt(t: State)
    requires Ok(t) && t.worker.Calling?
    ensures t.worker.id in t.active && t.worker.id !in t.queue && QueueOk(t)
  {
    hide Ok;
    ActiveAt(t, t.worker.id);
  }

  lemma ReturnedQueue(t: State)
    requires QueueOk(t) && t.worker.Calling? && t.worker.id in t.active && t.worker.id !in t.queue
    ensures Queued(t) ==> Queued(Returned(t))
    ensures var t' := Returned(t);
      && QueueOk(t') && !t'.worker.Calling? && (t'.worker.Stopped? ==> t'.done) && t'.destroyed == t.destroyed
        && t'.created == t.created && t'.fired == t.fired && t'.done == t.done && t'.end == t.end
      && (forall y :: y in t'.queue <==> y in t.queue || (y == t.worker.id && y in t'.active && !t'.worker.Stopped?))
      && (forall y :: y in t'.active ==> y in t.active && (y != t.worker.id ==> t'.active[y] == t.active[y]))
  {
    hide Insert, Distinct, Ordered;
    var id := t.worker.id;
    var t' := Returned(t);
    SameOrder(t.queue, t.active, t'.active);
    if !t.done && t.active[id].running && t.active[id].period > 0 {
      InsertOk(t.queue, t'.active, id);
    }
  }

  lemma ReturnedActive(t: State, y: nat)
    requires Ok(t) && t.worker.Calling? && t.worker.id in t.active && (forall x :: x in t.queue ==> x in t.active)
      && y in Returned(t).active
    ensures ActiveOk(Returned(t), y)
  {
    hide Ok, Insert, Distinct, Ordered, Due;
    WorkerAt(t);
    ReturnedQueue(t);
    ActiveAt(t, y);
    if y in t.created && y in t.count { var c: int := t.count[y]; DueNext(t.created[y], c - 1); }
  }

  lemma ReturnedGone(t: State, y: nat)
    requires Ok(t) && t.worker.Calling? && t.worker.id in t.active && (forall x :: x in t.queue ==> x in t.active)
      && y in Returned(t).destroyed
    ensures GoneOk(Returned(t), y)
  {
    hide Ok, Insert, Distinct, Ordered;
    WorkerAt(t);
    ReturnedQueue(t);
    ActiveAt(t, y);
    ActiveAt(t, t.worker.id);
  }

  lemma ReturnedCreated(t: State, y: nat)
    requires Ok(t) && t.worker.Calling? && t.worker.id in t.active && (forall x :: x in t.queue ==> x in t.active)
      && y in t.created
    ensures y in Returned(t).created && CreatedOk(Returned(t), y)
  {
    hide Ok, Insert, Firings;
    ActiveAt(t, y);
  }

  lemma ReturnedFiring(t: State, k: nat)
    requires Ok(t) && t.worker.Calling? && t.worker.id in t.active && (forall x :: x in t.queue ==> x in t.active)
      && k < |t.fired|
    ensures k < |Returned(t).fired| && FiringOk(Returned(t), k)
  {
    hide Ok, Insert, Firings, Due;
    FiringAt(t, k);
  }

  /** The timer is stopped; a worker that waits leaves its loop. */
  lemma StoppedIsOk(t: State)
    requires Ok(t)
    ensures !t.done ==>
        Ok(t.(done := true, end := |t.fired|)) && (Queued(t) ==> Queued(t.(done := true, end := |t.fired|)))
    ensures t.done && t.worker == Idle ==> Ok(t.(worker := Stopped)) && Queued(t.(worker := Stopped))
  {
    hide Ok;
    ActiveAt(t, 0);
    if !t.done {
      HaltedIsOk(t, t.(done := true, end := |t.fired|));
    } else if t.worker == Idle {
      HaltedIsOk(t, t.(worker := Stopped));
    }
  }

  lemma HaltedIsOk(t: State, t': State)
    requires Ok(t) && WorkerOk(t')
      && (t' == t.(done := true, end := |t.fired|) || (t.worker == Idle && t' == t.(worker := Stopped)))
    ensures Ok(t')
  {
    hide Ok, Firings, Due, Distinct, Ordered;
    ActiveAt(t, 0);
    forall y | y in t'.active ensures ActiveOk(t', y) { ActiveAt(t, y); }
    forall y | y in t'.destroyed ensures GoneOk(t', y) { ActiveAt(t, y); }
    forall y | y in t'.created ensures CreatedOk(t', y) { ActiveAt(t, y); }
    forall k | 0 <= k < |t'.fired| ensures FiringOk(t', k) { FiringAt(t, k); }
    OkIntro(t');
  }

  // ----- the timer

  class Timer {
    var nextId: nat
    var active: map<nat, Instance>
    var queue: seq<nat>
    var done: bool
    var worker: Worker
    var now: int
    ghost var fired: seq<Firing>
    ghost var created: map<nat, Instance>
    ghost var count: map<nat, nat>
    ghost var destroyed: map<nat, nat>
    ghost var end: nat

    ghost function S(): State
      reads this
    {
      State(nextId, active, queue, done, worker, fired, created, count, destroyed, end)
    }

    constructor ()
      ensures Ok(S()) && Queued(S()) && active == map[] && fired == [] && destroyed == map[] && !done
    {
      nextId, active, queue, done, worker, now := 1, map[], [], false, Idle, 0;
      fired, created, count, destroyed, end := [], map[], map[], map[], 0;
    }

    /** createImpl. */
    method Create(msFromNow: nat, period: nat) returns (id: nat)
      requires Ok(S())
      modifies this
      ensures Ok(S()) && (Queued(old(S())) ==> Queued(S()))
      ensures id == old(nextId) && id !in old(active) && id in queue
      ensures active == old(active)[id := Instance(now + msFromNow, period, false)] && now == old(now)
      ensures fired == old(fired) && worker == old(worker) && destroyed == old(destroyed) && done == old(done)
      ensures created == old(created)[id := active[id]]
    {
      hide Ok, Queued;
      ghost var x := Instance(now + msFromNow, period, false);
      CreatedIsOk(S(), x);
      id := nextId;
      nextId := nextId + 1;
      active := active[id := Instance(now + msFromNow, period, false)];
      queue := Insert(queue, active, id);
      created, count := created[id := x], count[id := 0];
    }

    /** The first part of the destructor. */
    method Stop()
      requires Ok(S()) && !done
      modifies this`done, this`end
      ensures Ok(S()) && (Queued(old(S())) ==> Queued(S())) && done && end == |fired|
    {
      StoppedIsOk(S());
      done, end := true, |fired|;
    }

    /** The worker, which waits with the lock released, finds that the timer was stopped. */
    method Quit()
      requires Ok(S()) && done && worker == Idle
      modifies this`worker
      ensures Ok(S()) && Queued(S()) && worker == Stopped
    {
      StoppedIsOk(S());
      worker := Stopped;
    }

    /** destroy, of any number at any time.  What has been and will be started stays in order
        exactly if it is the first destroy of the timer; all active timers stay queued or
        executed exactly if besides the handler is in progress or no other queued timer is
        due at the same time. */
    method Destroy(id: nat) returns (found: bool)
      requires Ok(S())
      modifies this
      ensures found == (id in old(active)) && fired == old(fired) && worker == old(worker) && created == old(created)
        && now == old(now)
      ensures destroyed == if found then old(destroyed)[id := |fired|] else old(destroyed)
      ensures if found && !old(active)[id].running then active == old(active) - {id}
        else active.Keys == old(active).Keys
      ensures !found ==> S() == old(S())
      ensures done == old(done) && QueueOk(old(S()))
      ensures Ok(S()) <==> (found ==> First(old(S()), id))
      ensures Queued(old(S())) ==> (Ok(S()) && Queued(S()) <==> (found ==> Safe(old(S()), id)))
    {
      hide Ok, Queued, Alone, Without;
      ActiveAt(S(), id);
      if id !in active { return false; }
      DestroyedIsOk(S(), id);
      if Queued(S()) { DestroyedIsQueued(S(), id); }
      if active[id].running {
        active := active[id := active[id].(running := false)];
      } else {
        queue := Without(queue, active, active[id].next);
        active := active - {id};
      }
      destroyed := destroyed[id := |fired|];
      found := true;
    }

    /** The worker finds the first instance due and starts its handler. */
    method Pick() returns (id: nat)
      requires Ok(S()) && worker == Idle && !done
      requires queue != [] && queue[0] in active && now >= active[queue[0]].next
      modifies this
      ensures Ok(S()) && (Queued(old(S())) ==> Queued(S()))
      ensures id == old(queue)[0] && queue == old(queue)[1..] && worker == Calling(id) && id !in destroyed
      ensures destroyed == old(destroyed) && created == old(created) && now == old(now)
      ensures forall x :: x in old(queue) ==> x in old(active) && old(active)[id].next <= old(active)[x].next
      ensures fired == old(fired) + [Firing(id, now, old(active)[id].next, Times(old(queue), old(active)))]
    {
      hide Ok, Queued;
      PickedIsOk(S(), now);
      id := queue[0];
      fired := fired + [Firing(id, now, active[id].next, Times(queue, active))];
      count := count[id := count[id] + 1];
      queue := queue[1..];
      active := active[id := active[id].(running := true)];
      worker := Calling(id);
    }

    /** The handler has returned, and the worker holds the lock again. */
    method Return()
      requires Ok(S()) && worker.Calling?
      modifies this
      ensures Ok(S()) && (Queued(old(S())) ==> Queued(S()))
      ensures fired == old(fired) && destroyed == old(destroyed) && created == old(created) && done == old(done)
        && now == old(now)
      ensures worker == if old(done) then Stopped else Idle
      ensures old(worker).id in old(active) && var x := old(active)[old(worker).id];
        active == (if old(done) then old(active)
                   else if x.running && x.period > 0 then
                     old(active)[old(worker).id := Instance(x.next + x.period, x.period, false)]
                   else old(active) - {old(worker).id})
    {
      hide Ok, Queued, Insert;
      ReturnedIsOk(S());
      var id := worker.id;
      if done {
        worker := Stopped;
      } else if !active[id].running {
        worker, active := Idle, active - {id};
      } else {
        worker, active := Idle, active[id := active[id].(running := false)];
        if active[id].period > 0 {
          active := active[id := active[id].(next := active[id].next + active[id].period)];
          assert active == old(active)[id := active[id]];
          queue := Insert(queue, active, id);
        } else {
          active := active - {id};
          assert active == old(active) - {id};
        }
      }
    }

    /** The timer has a time that has come. */
    static predicate IsDue(active: map<nat, Instance>, id: nat, now: int) {
      id in active && active[id].next <= now
    }

    /** One event, if it can happen; `gone` are the timers destroyed before.  Not in order is
        a destroy that finds an idle timer while another one is due at the same time. */
    method Happen(e: Event, gone: set<nat>) returns (gone': set<nat>, inOrder: bool)
      requires Ok(S()) && gone == destroyed.Keys
      modifies this
      ensures Ok(S()) && gone' == destroyed.Keys
      ensures old(done) ==> done && fired == old(fired)
      ensures Queued(old(S())) && inOrder ==> Queued(S())
      ensures !inOrder ==>
                e.DoDestroy? && e.id in old(active) && !old(active)[e.id].running
                && !(QueueOk(old(S())) && Alone(old(S()), e.id))
      ensures e.DoCreate? ==>
          old(nextId) !in old(active)
            && active == old(active)[old(nextId) := Instance(now + e.msFromNow, e.period, false)]
          && old(nextId) in queue && fired == old(fired) && worker == old(worker)
      ensures e.DoPick? ==>
          if old(worker) == Idle && !old(done) && (exists x :: x in old(queue) && IsDue(old(active), x, old(now)))
          then |fired| == |old(fired)| + 1 && old(fired) <= fired && worker == Calling(fired[|old(fired)|].id)
            && old(queue) != [] && fired[|old(fired)|].id == old(queue)[0] && queue == old(queue)[1..]
            && forall x :: x in old(queue) && x in old(active) ==> fired[|old(fired)|].next <= old(active)[x].next
          else S() == old(S())
      ensures now == if e.Tick? then old(now) + e.ms else old(now)
      ensures e.DoReturn? && old(worker).Calling? ==>
          worker == (if old(done) then Stopped else Idle) && fired == old(fired)
      ensures e.DoStop? ==> done && fired == old(fired)
      ensures e.DoQuit? && old(worker) == Idle && old(done) ==> worker == Stopped
      ensures e.DoDestroy? && e.id in old(active) && e.id !in gone ==> e.id in destroyed
      ensures e.Tick? ==> S() == old(S())
    {
      gone', inOrder := gone, true;
      hide Ok, Queued, Due, Distinct;
      ActiveAt(S(), 0);
      match e {
        case DoCreate(ms, period) =>
          var _ := Create(ms, period);
        case DoDestroy(id) =>
          if id !in active || worker.Stopped? || id !in gone {
            inOrder := id !in active || active[id].running || forall x :: x in queue && x != id ==>
                active[x].next != active[id].next;
            var found := Destroy(id);
            if found { gone' := gone + {id}; }
          }
        case Tick(ms) =>
          now := now + ms;
        case DoPick =>
          if worker == Idle && !done && queue != [] && queue[0] in active && now >= active[queue[0]].next {
            assert queue[0] in queue && IsDue(active, queue[0], now);
            var _ := Pick();
          }
        case DoReturn =>
          if worker.Calling? { Return(); }
        case DoStop =>
          if !done { Stop(); }
        case DoQuit =>
          if worker == Idle && done { Quit(); }
      }
    }
  }

  // ----- whole runs

  /** What callers and the worker do, in the order in which they get the lock; ticks of the
      clock come between. */
  datatype Event = DoCreate(msFromNow: nat,
    period: nat) | DoDestroy(id: nat) | Tick(ms: nat) | DoPick | DoReturn | DoStop | DoQuit

  /** Every interleaving in which no timer is destroyed twice while its handler runs: every
      handler starts when it is due, before all that are queued for later, and without drift,
      never after destroy of its timer has returned true, never after the timer was stopped,
      and only once without a period.  Every active timer is queued or executed if besides no
      idle timer was destroyed while another one was due at the same time. */
  method Run(events: seq<Event>) returns (timer: Timer, inOrder: bool)
    ensures fresh(timer) && Ok(timer.S()) && (inOrder ==> Queued(timer.S()))
    ensures (forall i :: 0 <= i < |events| ==> !events[i].DoDestroy?) ==> inOrder
    ensures forall id, k :: id in timer.destroyed && timer.destroyed[id] <= k < |timer.fired| ==>
        timer.fired[k].id != id
    ensures forall k :: 0 <= k < |timer.fired| ==>
      var f := timer.fired[k];
      f.now >= f.next && f.id in timer.created
      && f.next == timer.created[f.id].next + Firings(timer.fired[..k], f.id) * timer.created[f.id].period
    ensures forall k, i :: 0 <= k < |timer.fired| && 0 <= i < |timer.fired[k].queued| ==>
        timer.fired[k].next <= timer.fired[k].queued[i]
    ensures forall id :: id in timer.created && timer.created[id].period == 0 ==> Firings(timer.fired, id) <= 1
    ensures timer.done ==> |timer.fired| == timer.end
  {
    hide Ok, Due, Alone, QueueOk, Queued;
    timer := new Timer();
    inOrder := true;
    var gone := {};
    for i := 0 to |events|
      invariant fresh(timer) && Ok(timer.S()) && gone == timer.destroyed.Keys && (inOrder ==> Queued(timer.S()))
      invariant (forall j :: 0 <= j < i ==> !events[j].DoDestroy?) ==> inOrder
    {
      var one;
      gone, one := timer.Happen(events[i], gone);
      inOrder := inOrder && one;
    }
    ghost var t := timer.S();
    ActiveAt(t, 0);
    forall id, k | id in timer.destroyed && timer.destroyed[id] <= k < |timer.fired| ensures timer.fired[k].id != id {
      ActiveAt(t, id);
    }
    forall k | 0 <= k < |timer.fired|
      ensures var f := timer.fired[k];
        f.now >= f.next && f.id in timer.created
        && f.next == timer.created[f.id].next + Firings(timer.fired[..k], f.id) * timer.created[f.id].period
      ensures forall i :: 0 <= i < |timer.fired[k].queued| ==> timer.fired[k].next <= timer.fired[k].queued[i]
    {
      FiringAt(t, k);
      DueIs(t, t.fired[k].id, Firings(t.fired[..k], t.fired[k].id));
    }
    forall id | id in timer.created && timer.created[id].period == 0 ensures Firings(timer.fired, id) <= 1 {
      ActiveAt(t, id);
    }
  }

  /** Two timers due at the same time: destroying one takes the other out of the queue,
      though it stays active. */
  lemma SameTimeLosesOne()
    ensures var x := Instance(5, 0, false);
      var t := State(3, map[1 := x, 2 := x], [1, 2], false, Idle, [], map[1 := x, 2 := x], map[1 := 0, 2 := 0], map[],
        0);
      Ok(t) && Queued(t) && Ok(Destroyed(t, 1)) && !Queued(Destroyed(t, 1)) && 2 in Destroyed(t, 1).active
        && 2 !in Destroyed(t, 1).queue
  {
    var x := Instance(5, 0, false);
    var t := State(3, map[1 := x, 2 := x], [1, 2], false, Idle, [], map[1 := x, 2 := x], map[1 := 0, 2 := 0], map[], 0);
    assert Ok(t);
    assert !Alone(t, 1) by { assert 2 in t.queue; }
    DestroyedIsOk(t, 1);
    DestroyedIsQueued(t, 1);
  }

  /** A second destroy while the handler runs takes the instance away from under the worker. */
  lemma SecondDestroyLosesInstance()
    ensures var x := Instance(5, 0, false);
      var t := State(2, map[1 := x], [], false, Calling(1), [Firing(1, 5, 5, [5])], map[1 := x], map[1 := 1],
        map[1 := 1], 0);
      Ok(t) && !Ok(Destroyed(t, 1)) && 1 !in Destroyed(t, 1).active
  {
    var x := Instance(5, 0, false);
    var t := State(2, map[1 := x], [], false, Calling(1), [Firing(1, 5, 5, [5])], map[1 := x], map[1 := 1], map[1 := 1],
      0);
    var f := [Firing(1, 5, 5, [5])];
    assert f[..0] == [] && Firings(f, 1) == 1 && Firings([], 1) == 0;
    assert t.fired == f && t.fired[..0] == [];
    assert Ok(t);
    DestroyedIsOk(t, 1);
  }
}
