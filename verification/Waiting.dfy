/** How long a runnable thread waits: positions in the run queue of kernel/sched0.c over whole runs. */
module Waiting {
  import opened Wrappers
  import opened Ring
  import opened Queues
  import opened DeltaList
  import opened Scheduling

  function Spin(s: seq<int>): (r: seq<int>)
    requires s != []
    ensures |r| == |s|
  {
    s[1..] + [s[0]]
  }

  function Reverse(s: seq<int>): seq<int> { if s == [] then [] else Reverse(s[1..]) + [s[0]] }

  /** The step switches to the head of the run queue and moves it to the tail. */
  ghost predicate Turn(s: State, op: Op) {
    op.Yield? || (op.Tick? && s.current in s.quantum && Decrement(s.quantum[s.current]) == 0)
  }

  predicate Departs(op: Op) { op.Dequeue? || op.Sleep? }

  /** The threads a step puts in front of the run queue. */
  ghost function Woken(s: State, op: Op): seq<int> {
    match op
    case Enqueue(q) => if q in s.queues && s.queues[q] != [] then [s.queues[q][0]] else []
    case Update =>
      if Releases(s.future) && s.future[0].queue in s.queues then Reverse(s.queues[s.future[0].queue]) else []
    case _ => []
  }

  // ---- the run queue after a step

  lemma {:induction false} DrainReverses(s: State, q: int)
    requires RQ in s.queues && q in s.queues && q != RQ
    ensures Drain(s, q).queues[RQ] == Reverse(s.queues[q]) + s.queues[RQ]
    decreases |s.queues[q]|
  {
    if s.queues[q] != [] {
      var t, rq := s.queues[q][0], s.queues[RQ];
      TakeHead(s.queues[q]);
      var u := Wake(s, q);
      assert u.queues[RQ] == [t] + rq && u.queues[q] == s.queues[q][1..];
      DrainReverses(u, q);
      assert Reverse(s.queues[q][1..]) + ([t] + rq) == Reverse(s.queues[q][1..]) + [t] + rq;
    }
  }

  lemma LeaveSpins(s: State, q: int)
    requires RQ in s.queues && q in s.queues && q != RQ && Leave(s, q).Some?
    ensures s.current in s.queues[RQ] && Without(s.queues[RQ], s.current) != []
    ensures RQ in Leave(s, q).value.queues && Leave(s, q).value.queues[RQ] == Spin(Without(s.queues[RQ], s.current))
  {
    hide Without;
  }

  lemma SleepSpins(s: State, delay: nat, id: int)
    requires WellTyped(s) && id !in s.queues && SleepStep(s, delay, id).Some?
    ensures s.current in s.queues[RQ] && Without(s.queues[RQ], s.current) != []
    ensures RQ in SleepStep(s, delay, id).value.queues
    ensures SleepStep(s, delay, id).value.queues[RQ] == Spin(Without(s.queues[RQ], s.current))
  {
    hide Without, Leave, Insert, Ids;
    var (f, q) := Insert(s.future, delay, id);
    InsertQueue(s.future, delay, id);
    LeaveSpins(s.(future := f, queues := if q == id then s.queues[id := []] else s.queues), q);
  }

  lemma UpdateWakes(s: State)
    requires WellTyped(s)
    ensures RQ in UpdateStep(s).queues && UpdateStep(s).queues[RQ] == Woken(s, Update) + s.queues[RQ]
  {
    hide Drain, Ids, Reverse;
    if Releases(s.future) {
      IdAt(s.future, 0);
      DrainReverses(s.(future := Countdown(s.future)), s.future[0].queue);
    } else {
      assert [] + s.queues[RQ] == s.queues[RQ];
    }
  }

  /** The run queue after any step: threads woken come first, a turn moves the head to the tail, and a departure
      takes the current thread out and then moves the head to the tail, too. */
  lemma RunQueueAfter(s: State, op: Op, idle: int)
    requires Inv(s, idle) && Allowed(s, op, idle)
    ensures Next(s, op).Some? && RQ in Next(s, op).value.queues && RQ in s.queues && s.queues[RQ] != []
    ensures Departs(op) ==> s.current in s.queues[RQ] && Without(s.queues[RQ], s.current) != []
    ensures Next(s, op).value.queues[RQ] ==
      if Turn(s, op) then Spin(s.queues[RQ])
      else if Departs(op) then Spin(Without(s.queues[RQ], s.current))
      else Woken(s, op) + s.queues[RQ]
  {
    hide Partition, FutureOk, Without, SleepStep, UpdateStep, Leave;
    InvDefined(s, op, idle);
    NextKeepsInv(s, op, idle);
    assert At(s.queues, RQ, idle);
    assert [] + s.queues[RQ] == s.queues[RQ];
    match op
    case Dequeue(q) => LeaveSpins(s, q);
    case Sleep(delay, id) => SleepSpins(s, delay, id);
    case Update => UpdateWakes(s);
    case _ =>
  }

  // ---- positions

  /** The position of t in the run queue, from 0 at the head. */
  ghost function Position(s: State, t: int): nat
    requires RQ in s.queues && t in s.queues[RQ]
  {
    IndexOf(s.queues[RQ], t)
  }

  lemma SpinIndex(s: seq<int>, t: int)
    requires s != [] && Distinct(s) && t in s && Distinct(Spin(s))
    ensures t in Spin(s) && IndexOf(Spin(s), t) == if IndexOf(s, t) == 0 then |s| - 1 else IndexOf(s, t) - 1
  {
    hide IndexOf, Distinct;
    var i := IndexOf(s, t);
    IndexUnique(Spin(s), t, if i == 0 then |s| - 1 else i - 1);
  }

  lemma PushIndex(w: seq<int>, s: seq<int>, t: int)
    requires t in s && Distinct(w + s)
    ensures t in w + s && IndexOf(w + s, t) == |w| + IndexOf(s, t)
  {
    hide IndexOf, Distinct;
    IndexUnique(w + s, t, |w| + IndexOf(s, t));
  }

  lemma WithoutIndex(s: seq<int>, x: int, t: int)
    requires Distinct(s) && x in s && t in s && t != x
    ensures t in Without(s, x) && Distinct(Without(s, x))
    ensures IndexOf(Without(s, x), t) == IndexOf(s, t) - if IndexOf(s, x) < IndexOf(s, t) then 1 else 0
  {
    hide IndexOf, Distinct;
    var i, j := IndexOf(s, x), IndexOf(s, t);
    DistinctWithout(s, x);
    IndexUnique(Without(s, x), t, if i < j then j - 1 else j);
  }

  /** The position after the current thread has left. */
  ghost function Closed(s: State, t: int): nat
    requires RQ in s.queues && t in s.queues[RQ] && s.current in s.queues[RQ]
  {
    var i, j := Position(s, s.current), Position(s, t);
    if i < j then j - 1 else j
  }

  /** Where a thread of the run queue is after any step that does not make it leave: exactly as many places back
      as threads were woken, one place on after a turn, one place on after a departure besides the place that
      becomes free; from the head it goes to the tail. */
  lemma PositionAfter(s: State, op: Op, idle: int, t: int)
    requires Inv(s, idle) && Allowed(s, op, idle) && At(s.queues, RQ, t) && !(Departs(op) && t == s.current)
    ensures Next(s, op).Some? && At(Next(s, op).value.queues, RQ, t) && (Departs(op) ==> s.current in s.queues[RQ])
    ensures var (r, k) := (Next(s, op).value, Position(s, t));
      var last := |r.queues[RQ]| - 1;
      Position(r, t) ==
        if Turn(s, op) then (if k == 0 then last else k - 1)
        else if Departs(op) then (if Closed(s, t) == 0 then last else Closed(s, t) - 1)
        else k + |Woken(s, op)|
  {
    hide FutureOk, RunOk, Next, Allowed, IndexOf, Distinct, Woken, Turn, Spin, Without;
    RunQueueAfter(s, op, idle);
    NextKeepsInv(s, op, idle);
    var rq := s.queues[RQ];
    if Turn(s, op) {
      SpinIndex(rq, t);
    } else if Departs(op) {
      WithoutIndex(rq, s.current, t);
      SpinIndex(Without(rq, s.current), t);
    } else {
      PushIndex(Woken(s, op), rq, t);
    }
  }

  // ---- bounded waiting

  lemma TurnSwitches(s: State, op: Op, idle: int, t: int)
    requires Inv(s, idle) && Allowed(s, op, idle) && Turn(s, op) && At(s.queues, RQ, t)
    ensures Next(s, op).Some? && (Next(s, op).value.current == t <==> Position(s, t) == 0)
  {
    hide FutureOk, IndexOf, Rotate;
    InvDefined(s, op, idle);
    NextKeepsInv(s, op, idle);
    IndexUnique(s.queues[RQ], s.queues[RQ][0], 0);
  }

  /** No step of the run wakes a thread or makes one leave. */
  ghost predicate Quiet(s: State, ops: seq<Op>)
    decreases |ops|
  {
    ops == [] || (Woken(s, ops[0]) == [] && !Departs(ops[0])
      && (Next(s, ops[0]).Some? ==> Quiet(Next(s, ops[0]).value, ops[1..])))
  }

  /** The number of turns in a run. */
  ghost function Turns(s: State, ops: seq<Op>): nat
    decreases |ops|
  {
    if ops == [] then 0
    else (if Turn(s, ops[0]) then 1 else 0) + if Next(s, ops[0]).Some? then Turns(Next(s, ops[0]).value, ops[1..]) else 0
  }

  /** As long as no thread is woken and none leaves, every turn brings a waiting thread one place on. */
  lemma {:induction false} MovesUp(s: State, ops: seq<Op>, idle: int, t: int)
    requires Inv(s, idle) && Permitted(s, ops, idle) && Quiet(s, ops) && At(s.queues, RQ, t)
    requires Turns(s, ops) <= Position(s, t)
    ensures Run(s, ops).Some? && At(Run(s, ops).value.queues, RQ, t)
    ensures Position(Run(s, ops).value, t) == Position(s, t) - Turns(s, ops)
    decreases |ops|
  {
    hide Inv, Next, Allowed, Position, Woken, Turn;
    if ops != [] {
      PositionAfter(s, ops[0], idle, t);
      NextKeepsInv(s, ops[0], idle);
      MovesUp(Next(s, ops[0]).value, ops[1..], idle, t);
    }
  }

  /** The thread at position k is switched to by turn number k + 1, and by none before. */
  lemma RunsAtItsTurn(s: State, ops: seq<Op>, op: Op, idle: int, t: int)
    requires Inv(s, idle) && Permitted(s, ops, idle) && Quiet(s, ops) && At(s.queues, RQ, t)
    requires Turns(s, ops) <= Position(s, t)
    ensures Run(s, ops).Some?
    ensures Turn(Run(s, ops).value, op) ==>
      && Next(Run(s, ops).value, op).Some?
      && (Next(Run(s, ops).value, op).value.current == t <==> Turns(s, ops) == Position(s, t))
  {
    hide Inv, Next, Position, Woken, Turns, Quiet, Permitted, Run;
    MovesUp(s, ops, idle, t);
    RunKeepsInv(s, ops, idle);
    if Turn(Run(s, ops).value, op) {
      TurnSwitches(Run(s, ops).value, op, idle, t);
    }
  }

  // ---- being overtaken

  /** The threads in front of t. */
  ghost predicate Ahead(s: State, x: int, t: int)
    requires At(s.queues, RQ, t)
  {
    At(s.queues, RQ, x) && Position(s, x) < Position(s, t)
  }

  lemma SpinMembers(s: seq<int>, x: int)
    requires s != []
    ensures x in Spin(s) <==> x in s
  {
    assert s == [s[0]] + s[1..];
  }

  /** Whether x is in the run queue after a step. */
  lemma MembersAfter(s: State, op: Op, idle: int, x: int)
    requires Inv(s, idle) && Allowed(s, op, idle)
    ensures Next(s, op).Some?
    ensures At(Next(s, op).value.queues, RQ, x) <==>
      (At(s.queues, RQ, x) && !(Departs(op) && x == s.current)) || x in Woken(s, op)
  {
    hide FutureOk, RunOk, Next, Allowed, Woken, Spin, Without, Distinct;
    RunQueueAfter(s, op, idle);
    var rq := s.queues[RQ];
    QuietSteps(s, op);
    if Turn(s, op) {
      SpinMembers(rq, x);
    } else if Departs(op) {
      SpinMembers(Without(rq, s.current), x);
      DistinctWithout(rq, s.current);
    }
  }

  lemma QuietSteps(s: State, op: Op)
    ensures Turn(s, op) || Departs(op) ==> Woken(s, op) == []
    ensures !(Turn(s, op) && Departs(op))
  {
  }

  /** A thread woken is in front of all that were in the run queue. */
  lemma WokenAhead(s: State, op: Op, idle: int, x: int, t: int)
    requires Inv(s, idle) && Allowed(s, op, idle) && At(s.queues, RQ, t) && x in Woken(s, op)
    ensures Next(s, op).Some? && At(Next(s, op).value.queues, RQ, t)
    ensures Ahead(Next(s, op).value, x, t) && !At(s.queues, RQ, x)
  {
    hide FutureOk, RunOk, Next, Allowed, Woken, Spin, Without, IndexOf;
    QuietSteps(s, op);
    RunQueueAfter(s, op, idle);
    NextKeepsInv(s, op, idle);
    var w, rq := Woken(s, op), s.queues[RQ];
    var i :| 0 <= i < |w| && w[i] == x;
    forall j | 0 <= j < |rq| ensures rq[j] != x {
      assert (w + rq)[|w| + j] == rq[j] && (w + rq)[i] == x;
    }
    IndexUnique(w + rq, x, i);
    PushIndex(w, rq, t);
  }

  /** Two threads of the run queue keep their order over a step, unless one of them leaves or goes to the tail. */
  lemma OrderKept(s: State, op: Op, idle: int, x: int, t: int)
    requires Inv(s, idle) && Allowed(s, op, idle) && At(s.queues, RQ, t) && At(s.queues, RQ, x)
    requires !(Departs(op) && (t == s.current || x == s.current)) && (Departs(op) ==> s.current in s.queues[RQ])
    requires !(Turn(s, op) && Position(s, t) == 0) && !(Departs(op) && Closed(s, t) == 0)
    ensures Next(s, op).Some? && At(Next(s, op).value.queues, RQ, t)
    ensures Ahead(Next(s, op).value, x, t) ==> Ahead(s, x, t)
  {
    hide Inv, Next, Allowed, Woken, IndexOf, Turn;
    PositionAfter(s, op, idle, t);
    PositionAfter(s, op, idle, x);
    PositionBound(Next(s, op).value, t);
  }

  lemma PositionBound(s: State, t: int)
    requires At(s.queues, RQ, t)
    ensures Position(s, t) < |s.queues[RQ]|
  {
  }

  /** A thread is overtaken exactly by the threads a step wakes, as long as it does not go to the tail itself. */
  lemma OvertakenByWoken(s: State, op: Op, idle: int, t: int, x: int)
    requires Inv(s, idle) && Allowed(s, op, idle) && At(s.queues, RQ, t) && !(Departs(op) && t == s.current)
    requires Departs(op) ==> s.current in s.queues[RQ]
    requires !(Turn(s, op) && Position(s, t) == 0) && !(Departs(op) && Closed(s, t) == 0)
    ensures Next(s, op).Some? && At(Next(s, op).value.queues, RQ, t)
    ensures Ahead(Next(s, op).value, x, t) && !Ahead(s, x, t) <==> x in Woken(s, op)
  {
    hide Inv, Next, Allowed, Woken, Position, Closed, Turn;
    MembersAfter(s, op, idle, x);
    PositionAfter(s, op, idle, t);
    if x in Woken(s, op) {
      WokenAhead(s, op, idle, x, t);
    } else if At(s.queues, RQ, x) && !(Departs(op) && x == s.current) {
      OrderKept(s, op, idle, x, t);
    }
  }

  /** A departure switches to no one, but still moves the first thread left to the tail: that thread, and no other,
      loses its place. */
  lemma DepartureCostsFirst(s: State, op: Op, idle: int, t: int)
    requires Inv(s, idle) && Allowed(s, op, idle) && Departs(op) && At(s.queues, RQ, t) && t != s.current
    ensures Next(s, op).Some? && At(Next(s, op).value.queues, RQ, t) && s.current in s.queues[RQ]
    ensures Next(s, op).value.current == s.current
    ensures Position(Next(s, op).value, t) ==
      if Closed(s, t) == 0 then |Next(s, op).value.queues[RQ]| - 1 else Closed(s, t) - 1
  {
    hide Inv, Allowed, IndexOf, Closed, Position, Insert, Without;
    QuietSteps(s, op);
    InvDefined(s, op, idle);
    PositionAfter(s, op, idle, t);
  }

  // ---- wait queues

  /** The queue a departing thread goes to. */
  ghost function Goal(s: State, op: Op): int {
    match op
    case Dequeue(q) => q
    case Sleep(delay, id) => Insert(s.future, delay, id).1
    case _ => RQ
  }

  lemma LeaveAppends(s: State, q: int, p: int)
    requires RQ in s.queues && q in s.queues && q != RQ && Leave(s, q).Some? && p in s.queues && p != RQ
    ensures p in Leave(s, q).value.queues
    ensures Leave(s, q).value.queues[p] == if p == q then s.queues[p] + [s.current] else s.queues[p]
  {
    hide Without;
  }

  lemma {:induction false} DrainKeepsOthers(s: State, q: int, p: int)
    requires RQ in s.queues && q in s.queues && q != RQ && p in s.queues && p != RQ && p != q
    ensures Drain(s, q).queues[p] == s.queues[p]
    decreases |s.queues[q]|
  {
    if s.queues[q] != [] {
      TakeHead(s.queues[q]);
      DrainKeepsOthers(Wake(s, q), q, p);
    }
  }

  lemma SleepAppends(s: State, delay: nat, id: int, p: int)
    requires WellTyped(s) && id !in s.queues && SleepStep(s, delay, id).Some? && p in s.queues && p != RQ
    ensures var (r, q) := (SleepStep(s, delay, id).value, Insert(s.future, delay, id).1);
      p in r.queues && r.queues[p] == if p == q then s.queues[p] + [s.current] else s.queues[p]
  {
    hide Leave, Insert, Ids;
    var (f, q) := Insert(s.future, delay, id);
    InsertQueue(s.future, delay, id);
    LeaveAppends(s.(future := f, queues := if q == id then s.queues[id := []] else s.queues), q, p);
  }

  lemma UpdateKeepsOthers(s: State, p: int)
    requires WellTyped(s) && p in s.queues && p != RQ && !(Releases(s.future) && p == s.future[0].queue)
    ensures p in UpdateStep(s).queues && UpdateStep(s).queues[p] == s.queues[p]
  {
    hide Drain, Ids;
    if Releases(s.future) {
      IdAt(s.future, 0);
      DrainKeepsOthers(s.(future := Countdown(s.future)), s.future[0].queue, p);
    }
  }

  /** A wait queue after any step: the current thread joins it at the tail, scheduler_enqueue takes its head, and
      nothing else touches it until a timer releases it. */
  lemma WaitQueueAfter(s: State, op: Op, idle: int, p: int)
    requires Inv(s, idle) && Allowed(s, op, idle) && p in s.queues && p != RQ
    requires !(op.Update? && Releases(s.future) && p == s.future[0].queue)
    ensures Next(s, op).Some? && p in Next(s, op).value.queues
    ensures Next(s, op).value.queues[p] ==
      if op == Enqueue(p) then (if s.queues[p] == [] then [] else s.queues[p][1..])
      else if Departs(op) && Goal(s, op) == p then s.queues[p] + [s.current]
      else s.queues[p]
  {
    hide Partition, FutureOk, SleepStep, UpdateStep, Leave, Insert, Without;
    InvDefined(s, op, idle);
    NextKeepsInv(s, op, idle);
    match op
    case Enqueue(q) => WakeTakes(s, q, p);
    case Dequeue(q) => LeaveAppends(s, q, p);
    case Sleep(delay, id) => SleepAppends(s, delay, id, p);
    case Update => UpdateKeepsOthers(s, p);
    case _ =>
  }

  lemma WakeTakes(s: State, q: int, p: int)
    requires RQ in s.queues && q in s.queues && q != RQ && p in s.queues && p != RQ
    ensures p in Wake(s, q).queues
    ensures Wake(s, q).queues[p] == if p == q && s.queues[p] != [] then s.queues[p][1..] else s.queues[p]
  {
    if s.queues[q] != [] {
      TakeHead(s.queues[q]);
    }
  }

  /** Calls of scheduler_enqueue on queue p. */
  function Wakings(ops: seq<Op>, p: int): nat {
    if ops == [] then 0 else (if ops[0] == Enqueue(p) then 1 else 0) + Wakings(ops[1..], p)
  }

  /** The timer list after any step. */
  lemma FutureAfter(s: State, op: Op, idle: int)
    requires Inv(s, idle) && Allowed(s, op, idle)
    ensures Next(s, op).Some?
    ensures Next(s, op).value.future ==
      if op.Sleep? then Insert(s.future, op.delay, op.id).0
      else if op.Update? then Countdown(s.future)
      else s.future
  {
    hide Partition, FutureOk, UpdateStep, Insert, Without, Take, Rotate, PutHead, PutTail, Countdown;
    InvDefined(s, op, idle);
    NextKeepsInv(s, op, idle);
    if op.Update? {
      UpdateKeepsInv(s, idle);
    }
  }

  lemma CountdownIds(f: seq<Interval>, p: int)
    requires p !in Ids(f)
    ensures p !in Ids(Countdown(f))
  {
    if f != [] {
      hide Ids;
      Cons(f[0], f[1..]);
      assert [f[0]] + f[1..] == f;
      Cons(Interval(if f[0].ticks > 0 then f[0].ticks - 1 else 0, f[0].queue), f[1..]);
    }
  }

  lemma InsertPrivate(f: seq<Interval>, delay: nat, id: int, p: int)
    requires p !in Ids(f) && p != id
    ensures p !in Ids(Insert(f, delay, id).0)
  {
    hide Ids, Insert, Place, Joins;
    InsertIds(f, delay, id);
  }

  /** A queue that is not the timers' stays so. */
  lemma StaysPrivate(s: State, op: Op, idle: int, p: int)
    requires Inv(s, idle) && Allowed(s, op, idle) && p in s.queues && p !in Ids(s.future)
    ensures Next(s, op).Some? && p !in Ids(Next(s, op).value.future)
  {
    hide Inv, Next, Ids, Insert, Countdown;
    FutureAfter(s, op, idle);
    if op.Sleep? {
      InsertPrivate(s.future, op.delay, op.id, p);
    } else {
      CountdownIds(s.future, p);
    }
  }

  /** First come, first served: over every run the thread at position k of a wait queue is still there after k calls of
      scheduler_enqueue on that queue, k places further on, and the next call wakes it. */
  lemma {:induction false} WokenInOrder(s: State, ops: seq<Op>, idle: int, p: int, k: nat)
    requires Inv(s, idle) && Permitted(s, ops, idle) && p in s.queues && p != RQ && p !in Ids(s.future)
    requires k < |s.queues[p]| && Wakings(ops, p) <= k
    ensures Run(s, ops).Some? && p in Run(s, ops).value.queues
    ensures var (r, i) := (Run(s, ops).value, k - Wakings(ops, p));
      i < |r.queues[p]| && r.queues[p][i] == s.queues[p][k]
    decreases |ops|
  {
    hide Inv, Next, Allowed, Goal;
    if ops != [] {
      var op := ops[0];
      NotReleased(s, p);
      WaitQueueAfter(s, op, idle, p);
      NextKeepsInv(s, op, idle);
      StaysPrivate(s, op, idle, p);
      var u := Next(s, op).value;
      WokenInOrder(u, ops[1..], idle, p, if op == Enqueue(p) then k - 1 else k);
    }
  }

  lemma NotReleased(s: State, p: int)
    requires p !in Ids(s.future)
    ensures s.future != [] ==> p != s.future[0].queue
  {
    if s.future != [] {
      IdAt(s.future, 0);
    }
  }
}
