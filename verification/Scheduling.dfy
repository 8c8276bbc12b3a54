/** Run queue, wait queues and timers as one state machine: kernel/sched0.c and kernel/timecore.c by value.

    Interrupts are off inside each operation, so an operation is one step, and a run is any interleaving. */
module Scheduling {
  import opened Wrappers
  import opened Ring
  import opened Queues
  import opened DeltaList

  const MAX_QUANTUM: nat := 100

  /** The run queue. */
  const RQ: int := 0

  /** `leaving` holds the threads that have left the run queue but not yet come to the yield that follows. */
  datatype State = State(queues: Queues, quantum: map<int, nat>, current: int, leaving: set<int>, future: seq<Interval>)

  /** The operations; `id` names the interval that tsleep may allocate. */
  datatype Op =
    | Enqueue(from: int)
    | Dequeue(to: int)
    | Tick
    | Yield
    | Sleep(delay: nat, id: int)
    | Update
    | Spawn(thread: int, queue: int)

  ghost predicate WellTyped(s: State) {
    && RQ in s.queues && s.current in s.quantum
    && forall q | q in Ids(s.future) :: q in s.queues && q != RQ
  }

  ghost predicate Defined(s: State, op: Op) {
    && WellTyped(s)
    && match op
       case Enqueue(q) => q in s.queues && q != RQ
       case Dequeue(q) => q in s.queues && q != RQ
       case Sleep(_, id) => id !in s.queues
       case Spawn(_, q) => q !in s.queues
       case _ => true
  }

  // ---- the operations

  /** scheduler_enqueue: the first thread of q goes to the front of the run queue. */
  function Wake(s: State, q: int): State
    requires RQ in s.queues && q in s.queues
  {
    if s.queues[q] == [] then s
    else
      var t := s.queues[q][0];
      s.(queues := PutHead(Take(s.queues, q, t), RQ, t), quantum := s.quantum[t := MAX_QUANTUM])
  }

  /** scheduler_dequeue: the current thread leaves for the tail of q. None if a bug_on fires. */
  function Leave(s: State, q: int): Option<State>
    requires RQ in s.queues && q in s.queues && q != RQ
  {
    if s.current !in s.queues[RQ] then None
    else
      var qs := Take(s.queues, RQ, s.current);
      if qs[RQ] == [] then None
      else Some(s.(queues := PutTail(Rotate(qs, RQ), q, s.current),
                   quantum := s.quantum[s.current := MAX_QUANTUM], leaving := s.leaving + {s.current}))
  }

  function Decrement(q: nat): nat { if q == 0 then 0xFFFF_FFFF else q - 1 }

  /** The timer interrupt as the scheduler sees it, up to the context switch at its end. */
  function TickStep(s: State): Option<State>
    requires RQ in s.queues && s.current in s.quantum
  {
    if s.queues[RQ] == [] then None
    else if Decrement(s.quantum[s.current]) == 0 then
      Some(s.(quantum := s.quantum[s.current := MAX_QUANTUM], queues := Rotate(s.queues, RQ), current := s.queues[RQ][0]))
    else Some(s.(quantum := s.quantum[s.current := Decrement(s.quantum[s.current])]))
  }

  function YieldStep(s: State): Option<State>
    requires RQ in s.queues
  {
    if s.queues[RQ] == [] then None
    else Some(s.(quantum := s.quantum[s.current := MAX_QUANTUM], leaving := s.leaving - {s.current},
                 queues := Rotate(s.queues, RQ), current := s.queues[RQ][0]))
  }

  /** The critical section of tsleep; the yield that ends it is a step of its own. */
  function SleepStep(s: State, delay: nat, id: int): Option<State>
    requires WellTyped(s) && id !in s.queues
  {
    var (f, q) := Insert(s.future, delay, id);
    InsertQueue(s.future, delay, id);
    Leave(s.(future := f, queues := if q == id then s.queues[id := []] else s.queues), q)
  }

  lemma InsertQueue(f: seq<Interval>, delay: nat, id: int)
    ensures Insert(f, delay, id).1 == id || Insert(f, delay, id).1 in Ids(f)
  {
    InsertGivesDelay(f, delay, id);
    if Joins(f, delay) {
      IdAt(f, Place(f, delay));
    }
  }

  /** The loop that empties the queue of a released interval. */
  function Drain(s: State, q: int): (r: State)
    requires RQ in s.queues && q in s.queues && q != RQ
    ensures r.queues.Keys == s.queues.Keys && r.queues[q] == []
    decreases |s.queues[q]|
  {
    if s.queues[q] == [] then s
    else
      TakeHead(s.queues[q]);
      Drain(Wake(s, q), q)
  }

  function UpdateStep(s: State): State
    requires WellTyped(s)
  {
    if s.future == [] || s.future[0].ticks > 0 then s.(future := Countdown(s.future))
    else
      var q := s.future[0].queue;
      IdAt(s.future, 0);
      var r := Drain(s.(future := Countdown(s.future)), q);
      r.(queues := r.queues - {q})
  }

  /** One step; None if a bug_on fires. */
  ghost function Next(s: State, op: Op): Option<State> {
    if !Defined(s, op) then None
    else match op
    case Enqueue(q) => Some(Wake(s, q))
    case Dequeue(q) => Leave(s, q)
    case Tick => TickStep(s)
    case Yield => YieldStep(s)
    case Sleep(delay, id) => SleepStep(s, delay, id)
    case Update => Some(UpdateStep(s))
    case Spawn(t, q) => Some(s.(queues := s.queues[q := [t]]))
  }

  // ---- the invariant

  ghost predicate QuantumOk(s: State, t: int) { t in s.quantum && 1 <= s.quantum[t] <= MAX_QUANTUM }

  ghost predicate FutureOk(keys: set<int>, f: seq<Interval>) {
    Ordered(f) && Distinct(Ids(f)) && forall q | q in Ids(f) :: q in keys && q != RQ
  }

  ghost predicate RunOk(s: State, idle: int) {
    && At(s.queues, RQ, idle) && idle !in s.leaving
    && (s.current in s.leaving || At(s.queues, RQ, s.current))
    && QuantumOk(s, s.current) && forall t | At(s.queues, RQ, t) :: QuantumOk(s, t)
  }

  ghost predicate Inv(s: State, idle: int) {
    RQ in s.queues && Partition(s.queues) && FutureOk(s.queues.Keys, s.future) && RunOk(s, idle)
  }

  /** What the callers see to: a thread that leaves the run queue yields next, the idle thread never leaves it,
      and the timers' queues are their own. */
  ghost predicate Allowed(s: State, op: Op, idle: int) {
    match op
    case Enqueue(q) => q in s.queues && q != RQ && q !in Ids(s.future)
    case Dequeue(q) => q in s.queues && q != RQ && q !in Ids(s.future) && s.current !in s.leaving && s.current != idle
    case Sleep(_, id) => id !in s.queues && s.current !in s.leaving && s.current != idle
    case Spawn(t, q) => !Queued(s.queues, t) && q !in s.queues
    case _ => true
  }

  lemma InvDefined(s: State, op: Op, idle: int)
    requires Inv(s, idle) && Allowed(s, op, idle)
    ensures Defined(s, op)
  {
  }

  lemma WakeKeepsInv(s: State, q: int, idle: int)
    requires Inv(s, idle) && q in s.queues && q != RQ
    ensures Inv(Wake(s, q), idle) && Wake(s, q).queues.Keys == s.queues.Keys
    ensures s.queues[q] != [] ==> Moves(s.queues, Wake(s, q).queues, s.queues[q][0], RQ)
  {
    hide Partition, FutureOk, Without;
    if s.queues[q] != [] {
      var t := s.queues[q][0];
      MoveKeeps(s.queues, q, t, RQ, [t] + Take(s.queues, q, t)[RQ]);
    }
  }

  /** bug_on fires in scheduler_dequeue exactly if the caller is not on the run queue, or is alone there. */
  lemma LeaveBugs(s: State, q: int)
    requires RQ in s.queues && Partition(s.queues) && q in s.queues && q != RQ
    ensures Leave(s, q) == None <==> s.current !in s.queues[RQ] || s.queues[RQ] == [s.current]
  {
    if s.current in s.queues[RQ] {
      var w := Without(s.queues[RQ], s.current);
      assert |w| == |s.queues[RQ]| - 1;
    }
  }

  lemma LeaveKeepsInv(s: State, q: int, idle: int)
    requires Inv(s, idle) && q in s.queues && q != RQ && s.current !in s.leaving && s.current != idle
    ensures Leave(s, q).Some? && Inv(Leave(s, q).value, idle) && Leave(s, q).value.queues.Keys == s.queues.Keys
    ensures Moves(s.queues, Leave(s, q).value.queues, s.current, q)
  {
    hide Partition, FutureOk, Without;
    var t := s.current;
    var qs := Take(s.queues, RQ, t);
    TakeKeeps(s.queues, RQ, t);
    assert At(qs, RQ, idle);
    RotateKeeps(qs, RQ);
    PutKeeps(Rotate(qs, RQ), q, t, Rotate(qs, RQ)[q] + [t]);
    var r := Leave(s, q).value;
    assert r.queues.Keys == s.queues.Keys;
    assert forall x :: At(r.queues, RQ, x) <==> At(s.queues, RQ, x) && x != t;
  }

  lemma SwitchKeepsInv(s: State, idle: int)
    requires Inv(s, idle)
    ensures TickStep(s).Some? && Inv(TickStep(s).value, idle)
    ensures YieldStep(s).Some? && Inv(YieldStep(s).value, idle)
  {
    hide Partition, FutureOk, Rotate;
    RotateKeeps(s.queues, RQ);
    assert At(s.queues, RQ, idle) && At(s.queues, RQ, s.queues[RQ][0]);
  }

  /** A sleep finds or makes room in the timer list, before the caller leaves. */
  lemma InsertKeepsFuture(keys: set<int>, f: seq<Interval>, delay: nat, id: int)
    requires FutureOk(keys, f) && id !in keys && id != RQ
    ensures var (g, q) := Insert(f, delay, id);
      && FutureOk(if q == id then keys + {id} else keys, g)
      && (q == id || q in keys) && q != RQ
  {
    hide Insert, Joins, Place, Ids, Ordered;
    InsertGivesDelay(f, delay, id);
    InsertQueue(f, delay, id);
    InsertIds(f, delay, id);
    InsertKeepsOrdered(f, delay, id);
    if !Joins(f, delay) {
      DistinctInsert(Ids(f), Place(f, delay), id);
    }
  }

  lemma DistinctInsert(s: seq<int>, j: nat, x: int)
    requires Distinct(s) && j <= |s| && x !in s
    ensures Distinct(s[..j] + [x] + s[j..]) && forall y :: y in s[..j] + [x] + s[j..] <==> y in s || y == x
  {
    var t := s[..j] + [x] + s[j..];
    forall i | 0 <= i < |t| ensures t[i] == if i < j then s[i] else if i == j then x else s[i - 1] {
    }
    forall y | y in s ensures y in t {
      var i :| 0 <= i < |s| && s[i] == y;
      assert t[if i < j then i else i + 1] == y;
    }
  }

  lemma NewQueueKeeps(qs: Queues, q: int, s: seq<int>)
    requires Partition(qs) && q !in qs && Distinct(s) && forall t | t in s :: !Queued(qs, t)
    ensures Partition(qs[q := s])
    ensures forall p, x :: At(qs[q := s], p, x) <==> At(qs, p, x) || (p == q && x in s)
  {
    UpdateKeeps(qs, q, s);
  }

  lemma SleepKeepsInv(s: State, delay: nat, id: int, idle: int)
    requires Inv(s, idle) && Allowed(s, Sleep(delay, id), idle)
    ensures SleepStep(s, delay, id).Some? && Inv(SleepStep(s, delay, id).value, idle)
    ensures Moves(s.queues, SleepStep(s, delay, id).value.queues, s.current, Insert(s.future, delay, id).1)
  {
    hide Partition, FutureOk, Insert, Leave;
    var (f, q) := Insert(s.future, delay, id);
    InsertKeepsFuture(s.queues.Keys, s.future, delay, id);
    NewQueueKeeps(s.queues, id, []);
    var s' := s.(future := f, queues := if q == id then s.queues[id := []] else s.queues);
    assert s.queues[id := []].Keys == s.queues.Keys + {id};
    assert forall p, x :: At(s'.queues, p, x) <==> At(s.queues, p, x);
    LeaveKeepsInv(s', q, idle);
  }

  // ---- waking the sleepers of an interval

  /** Waking the first thread t of q changes the queue of t alone. */
  lemma WakeMoves(s: State, q: int, idle: int)
    requires Inv(s, idle) && q in s.queues && q != RQ && s.queues[q] != []
    ensures var u := Wake(s, q);
      && u.queues[q] == s.queues[q][1..]
      && u.queues.Keys == s.queues.Keys
      && forall p, x :: At(u.queues, p, x) <==> if x == s.queues[q][0] then p == RQ else At(s.queues, p, x)
  {
    hide FutureOk, RunOk, Wake;
    WakeKeepsInv(s, q, idle);
    TakeHead(s.queues[q]);
    assert Wake(s, q).queues[q] == s.queues[q][1..] by {
      WakeTail(s, q);
    }
  }

  lemma WakeTail(s: State, q: int)
    requires RQ in s.queues && q in s.queues && q != RQ && s.queues[q] != []
    ensures Wake(s, q).queues.Keys == s.queues.Keys && Wake(s, q).queues[q] == s.queues[q][1..]
    ensures Wake(s, q).future == s.future && Wake(s, q).current == s.current
  {
    TakeHead(s.queues[q]);
  }

  /** The threads of q are on the run queue, and all others where they were. */
  ghost predicate Drained(qs: Queues, qs': Queues, q: int) {
    && qs'.Keys == qs.Keys
    && forall p, t :: At(qs', p, t) <==> (At(qs, p, t) && p != q) || (p == RQ && At(qs, q, t))
  }

  lemma DrainedStep(qs: Queues, us: Queues, rs: Queues, q: int, t: int)
    requires Partition(qs) && RQ in qs && At(qs, q, t) && q != RQ && us.Keys == qs.Keys
    requires forall p, x :: At(us, p, x) <==> if x == t then p == RQ else At(qs, p, x)
    requires Drained(us, rs, q)
    ensures Drained(qs, rs, q)
  {
    forall p, x ensures At(rs, p, x) <==> (At(qs, p, x) && p != q) || (p == RQ && At(qs, q, x)) {
    }
  }

  /** Draining moves all threads of q to the run queue, and no other thread. */
  lemma {:induction false} DrainKeepsInv(s: State, q: int, idle: int)
    requires Inv(s, idle) && q in s.queues && q != RQ
    ensures var r := Drain(s, q);
      Inv(r, idle) && r.future == s.future && r.current == s.current && Drained(s.queues, r.queues, q)
    decreases |s.queues[q]|
  {
    hide FutureOk, RunOk, Wake;
    if s.queues[q] != [] {
      var u := Wake(s, q);
      WakeTail(s, q);
      WakeMoves(s, q, idle);
      WakeKeepsInv(s, q, idle);
      DrainKeepsInv(u, q, idle);
      DrainedStep(s.queues, u.queues, Drain(u, q).queues, q, s.queues[q][0]);
    }
  }

  lemma DistinctTail(s: seq<int>)
    requires Distinct(s) && s != []
    ensures Distinct(s[1..]) && s[0] !in s[1..]
  {
  }

  lemma CountdownKeeps(keys: set<int>, f: seq<Interval>)
    requires FutureOk(keys, f)
    ensures FutureOk(keys, Countdown(f))
    ensures f != [] && f[0].ticks == 0 ==> FutureOk(keys - {f[0].queue}, Countdown(f))
  {
    if f != [] {
      hide Ids, Distinct;
      Cons(f[0], f[1..]);
      assert [f[0]] + f[1..] == f;
      Cons(Interval(if f[0].ticks > 0 then f[0].ticks - 1 else 0, f[0].queue), f[1..]);
      assert Ids(f)[1..] == Ids(f[1..]);
      DistinctTail(Ids(f));
    }
  }

  lemma DropQueueKeeps(qs: Queues, q: int)
    requires Partition(qs) && q in qs
    ensures Partition(qs - {q})
    ensures forall p, x :: At(qs - {q}, p, x) <==> At(qs, p, x) && p != q
  {
    assert forall p, x :: At(qs - {q}, p, x) <==> At(qs, p, x) && p != q;
  }

  /** The first interval is released by the next update. */
  predicate Releases(f: seq<Interval>) { f != [] && f[0].ticks == 0 }

  /** An update moves the sleepers of a released interval to the run queue, and no other thread. */
  lemma UpdateKeepsInv(s: State, idle: int)
    requires Inv(s, idle)
    ensures Inv(UpdateStep(s), idle) && UpdateStep(s).future == Countdown(s.future)
    ensures forall p, t :: At(UpdateStep(s).queues, p, t) <==>
      if !Releases(s.future) then At(s.queues, p, t)
      else (At(s.queues, p, t) && p != s.future[0].queue) || (p == RQ && At(s.queues, s.future[0].queue, t))
  {
    hide Partition, Distinct, Ids, Ordered;
    CountdownKeeps(s.queues.Keys, s.future);
    if Releases(s.future) {
      var q := s.future[0].queue;
      IdAt(s.future, 0);
      var s' := s.(future := Countdown(s.future));
      DrainKeepsInv(s', q, idle);
      var r := Drain(s', q);
      DropQueueKeeps(r.queues, q);
      assert (r.queues - {q}).Keys == s.queues.Keys - {q};
    }
  }

  // ---- every step, and every run

  /** No step that its callers may take sets off a bug_on, and the invariant is kept. */
  lemma NextKeepsInv(s: State, op: Op, idle: int)
    requires Inv(s, idle) && Allowed(s, op, idle)
    ensures Next(s, op).Some? && Inv(Next(s, op).value, idle)
  {
    hide FutureOk, Partition, RunOk, Wake, Leave, TickStep, YieldStep, SleepStep, UpdateStep, Defined;
    InvDefined(s, op, idle);
    match op
    case Enqueue(q) => WakeKeepsInv(s, q, idle);
    case Dequeue(q) => LeaveKeepsInv(s, q, idle);
    case Tick => SwitchKeepsInv(s, idle);
    case Yield => SwitchKeepsInv(s, idle);
    case Sleep(delay, id) => SleepKeepsInv(s, delay, id, idle);
    case Update => UpdateKeepsInv(s, idle);
    case Spawn(t, q) => SpawnKeepsInv(s, t, q, s.queues[q := [t]], idle);
  }

  lemma SpawnKeepsInv(s: State, t: int, q: int, qs': Queues, idle: int)
    requires Inv(s, idle) && Allowed(s, Spawn(t, q), idle) && qs' == s.queues[q := [t]]
    ensures Inv(s.(queues := qs'), idle)
    ensures forall p, x :: At(qs', p, x) <==> At(s.queues, p, x) || (p == q && x == t)
  {
    hide Partition, Ids, Ordered;
    NewQueueKeeps(s.queues, q, [t]);
    forall p, x ensures At(qs', p, x) <==> At(s.queues, p, x) || (p == q && x == t) {
      AtUpdate(s.queues, q, [t], p, x);
    }
  }

  lemma MovesConserves(qs: Queues, qs': Queues, t: int, q: int)
    requires Moves(qs, qs', t, q) && Queued(qs, t)
    ensures forall x :: Queued(qs', x) <==> Queued(qs, x)
  {
    forall x ensures Queued(qs', x) <==> Queued(qs, x) {
      if x == t {
        assert At(qs', q, t);
      } else if Queued(qs, x) {
        var p :| At(qs, p, x);
        assert At(qs', p, x);
      }
    }
  }

  lemma SameConserves(qs: Queues, qs': Queues)
    requires forall p, x :: At(qs', p, x) <==> At(qs, p, x)
    ensures forall x :: Queued(qs', x) <==> Queued(qs, x)
  {
    forall x ensures Queued(qs', x) <==> Queued(qs, x) {
      if Queued(qs, x) {
        var p :| At(qs, p, x);
        assert At(qs', p, x);
      }
    }
  }

  lemma UpdateConserves(s: State, idle: int)
    requires Inv(s, idle)
    ensures forall x :: Queued(UpdateStep(s).queues, x) <==> Queued(s.queues, x)
  {
    hide Inv, UpdateStep, Releases;
    InvDefined(s, Update, idle);
    UpdateKeepsInv(s, idle);
    var qs, qs' := s.queues, UpdateStep(s).queues;
    if !Releases(s.future) {
      SameConserves(qs, qs');
    } else {
      forall x ensures Queued(qs', x) <==> Queued(qs, x) {
        if Queued(qs, x) {
          var p :| At(qs, p, x);
          assert At(qs', p, x) || At(qs', RQ, x);
        }
      }
    }
  }

  /** No thread is lost: after a step the queued threads are those queued before, and a new one if one was made. */
  lemma NextConserves(s: State, op: Op, idle: int)
    requires Inv(s, idle) && Allowed(s, op, idle)
    ensures Next(s, op).Some?
    ensures forall x :: Queued(Next(s, op).value.queues, x) <==> Queued(s.queues, x) || (op.Spawn? && x == op.thread)
  {
    hide FutureOk, RunOk, Partition, Wake, Leave, SleepStep, UpdateStep, Defined, Moves;
    InvDefined(s, op, idle);
    NextKeepsInv(s, op, idle);
    var qs, qs' := s.queues, Next(s, op).value.queues;
    match op
    case Enqueue(q) =>
      WakeKeepsInv(s, q, idle);
      if qs[q] != [] {
        assert At(qs, q, qs[q][0]);
        MovesConserves(qs, qs', qs[q][0], RQ);
      } else {
        assert qs' == qs by {
          WakeNothing(s, q);
        }
      }
    case Dequeue(q) =>
      LeaveKeepsInv(s, q, idle);
      CurrentQueued(s, idle);
      MovesConserves(qs, qs', s.current, q);
    case Tick =>
      RotateKeeps(qs, RQ);
      SameConserves(qs, qs');
    case Yield =>
      RotateKeeps(qs, RQ);
      SameConserves(qs, qs');
    case Sleep(delay, id) =>
      SleepKeepsInv(s, delay, id, idle);
      CurrentQueued(s, idle);
      MovesConserves(qs, qs', s.current, Insert(s.future, delay, id).1);
    case Update => UpdateConserves(s, idle);
    case Spawn(t, q) => SpawnConserves(s, t, q, qs', idle);
  }

  lemma WakeNothing(s: State, q: int)
    requires RQ in s.queues && q in s.queues && s.queues[q] == []
    ensures Wake(s, q) == s
  {
  }

  lemma CurrentQueued(s: State, idle: int)
    requires Inv(s, idle) && s.current !in s.leaving
    ensures Queued(s.queues, s.current)
  {
    assert At(s.queues, RQ, s.current);
  }

  lemma SpawnConserves(s: State, t: int, q: int, qs': Queues, idle: int)
    requires Inv(s, idle) && Allowed(s, Spawn(t, q), idle) && qs' == s.queues[q := [t]]
    ensures forall x :: Queued(qs', x) <==> Queued(s.queues, x) || x == t
  {
    hide Inv, At;
    SpawnKeepsInv(s, t, q, qs', idle);
    forall x ensures Queued(qs', x) <==> Queued(s.queues, x) || x == t {
      if x == t {
        assert At(qs', q, t);
      } else if Queued(s.queues, x) {
        var p :| At(s.queues, p, x);
        assert At(qs', p, x);
      }
    }
  }

  /** Each step is one its callers may take in the state it is taken in. */
  ghost predicate Permitted(s: State, ops: seq<Op>, idle: int)
    decreases |ops|
  {
    ops == [] || (Allowed(s, ops[0], idle) && (Next(s, ops[0]).Some? ==> Permitted(Next(s, ops[0]).value, ops[1..], idle)))
  }

  ghost function Run(s: State, ops: seq<Op>): Option<State>
    decreases |ops|
  {
    if ops == [] then Some(s)
    else if Next(s, ops[0]).None? then None
    else Run(Next(s, ops[0]).value, ops[1..])
  }

  ghost predicate Spawned(ops: seq<Op>, t: int) { exists op | op in ops :: op.Spawn? && op.thread == t }

  lemma SpawnedStep(ops: seq<Op>, t: int)
    requires ops != []
    ensures Spawned(ops, t) <==> (ops[0].Spawn? && ops[0].thread == t) || Spawned(ops[1..], t)
  {
    assert ops == [ops[0]] + ops[1..];
  }

  /** Every interleaving: the bug_on checks never fire, each thread is in exactly one queue at one place, and
      exactly the threads there were at the start, with those made since, are queued. */
  lemma {:induction false} RunKeepsInv(s: State, ops: seq<Op>, idle: int)
    requires Inv(s, idle) && Permitted(s, ops, idle)
    ensures Run(s, ops).Some? && Inv(Run(s, ops).value, idle)
    ensures forall t :: Queued(Run(s, ops).value.queues, t) <==> Queued(s.queues, t) || Spawned(ops, t)
    decreases |ops|
  {
    if ops != [] {
      hide Inv, Next, Allowed, Queued, Spawned;
      var u := Next(s, ops[0]).value;
      NextKeepsInv(s, ops[0], idle);
      NextConserves(s, ops[0], idle);
      RunKeepsInv(u, ops[1..], idle);
      forall t ensures Spawned(ops, t) <==> (ops[0].Spawn? && ops[0].thread == t) || Spawned(ops[1..], t) {
        SpawnedStep(ops, t);
      }
    }
  }
}
