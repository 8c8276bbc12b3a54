/** What the ticks of kernel/sched0.c do to the quanta, and how soon they bring every runnable thread to its turn. */
module Preemption {
  import opened Wrappers
  import opened Ring
  import opened Queues
  import opened DeltaList
  import opened Scheduling
  import opened Waiting

  // ---- quanta

  lemma {:induction false} DrainRefills(s: State, q: int, t: int)
    requires RQ in s.queues && q in s.queues && q != RQ && (t in s.quantum || t in s.queues[q])
    ensures t in Drain(s, q).quantum
    ensures Drain(s, q).quantum[t] == if t in s.queues[q] then 100 else s.quantum[t]
    decreases |s.queues[q]|
  {
    if s.queues[q] != [] {
      TakeHead(s.queues[q]);
      var u := Wake(s, q);
      assert s.queues[q] == [s.queues[q][0]] + u.queues[q];
      DrainRefills(u, q, t);
    }
  }

  lemma {:induction false} ReverseMembers(s: seq<int>, x: int)
    ensures x in Reverse(s) <==> x in s
  {
    if s != [] {
      ReverseMembers(s[1..], x);
      assert s == [s[0]] + s[1..];
    }
  }

  lemma UpdateRefills(s: State, t: int)
    requires WellTyped(s) && t in s.quantum
    ensures t in UpdateStep(s).quantum
    ensures UpdateStep(s).quantum[t] == if t in Woken(s, Update) then 100 else s.quantum[t]
  {
    hide Drain, Ids, Reverse;
    if Releases(s.future) {
      IdAt(s.future, 0);
      var q := s.future[0].queue;
      DrainRefills(s.(future := Countdown(s.future)), q, t);
      ReverseMembers(s.queues[q], t);
    }
  }

  lemma LeaveRefills(s: State, q: int, t: int)
    requires RQ in s.queues && q in s.queues && q != RQ && Leave(s, q).Some? && t in s.quantum
    ensures t in Leave(s, q).value.quantum
    ensures Leave(s, q).value.quantum[t] == if t == s.current then 100 else s.quantum[t]
  {
    hide Take, Rotate, PutTail;
  }

  lemma SleepRefills(s: State, delay: nat, id: int, t: int)
    requires WellTyped(s) && id !in s.queues && SleepStep(s, delay, id).Some? && t in s.quantum
    ensures t in SleepStep(s, delay, id).value.quantum
    ensures SleepStep(s, delay, id).value.quantum[t] == if t == s.current then 100 else s.quantum[t]
  {
    hide Leave, Insert, Ids;
    var (f, q) := Insert(s.future, delay, id);
    InsertQueue(s.future, delay, id);
    LeaveRefills(s.(future := f, queues := if q == id then s.queues[id := []] else s.queues), q, t);
  }

  /** A tick is a turn exactly if it takes the last of the quantum. */
  lemma TurnAtOne(s: State, idle: int)
    requires Inv(s, idle)
    ensures Turn(s, Tick) <==> s.quantum[s.current] == 1
    ensures 1 <= s.quantum[s.current] <= 100
  {
  }

  /** The quantum of every thread after any step: a tick that is no turn takes one from the current thread; a thread
      that gives up the processor or is woken has a full quantum of 100; no other quantum changes. */
  lemma QuantumAfter(s: State, op: Op, idle: int, t: int)
    requires Inv(s, idle) && Allowed(s, op, idle) && t in s.quantum
    ensures Next(s, op).Some? && t in Next(s, op).value.quantum
    ensures Next(s, op).value.quantum[t] ==
      if t == s.current && op.Tick? && !Turn(s, op) then s.quantum[t] - 1
      else if t == s.current && (Turn(s, op) || Departs(op)) then 100
      else if t in Woken(s, op) then 100
      else s.quantum[t]
  {
    hide Partition, FutureOk, Without, SleepStep, UpdateStep, Leave, Rotate, Take, PutHead;
    InvDefined(s, op, idle);
    NextKeepsInv(s, op, idle);
    TurnAtOne(s, idle);
    match op
    case Dequeue(q) => LeaveRefills(s, q, t);
    case Sleep(delay, id) => SleepRefills(s, delay, id, t);
    case Update => UpdateRefills(s, t);
    case _ =>
  }

  // ---- ticks in a row

  function Ticks(n: nat): seq<Op> { if n == 0 then [] else [Tick] + Ticks(n - 1) }

  lemma TickCounts(s: State, idle: int)
    requires Inv(s, idle) && s.quantum[s.current] > 1
    ensures Next(s, Tick) == Some(s.(quantum := s.quantum[s.current := s.quantum[s.current] - 1]))
  {
    InvDefined(s, Tick, idle);
    NextKeepsInv(s, Tick, idle);
  }

  /** With quantum q, each of the first q - 1 ticks takes one from it and changes nothing else. */
  lemma {:induction false} TicksCountDown(s: State, n: nat, idle: int)
    requires Inv(s, idle) && n < s.quantum[s.current]
    ensures Run(s, Ticks(n)) == Some(s.(quantum := s.quantum[s.current := s.quantum[s.current] - n]))
    decreases n
  {
    hide Inv, Next;
    if n == 0 {
      assert s.quantum[s.current := s.quantum[s.current]] == s.quantum by {
        CurrentHasQuantum(s, idle);
      }
    } else {
      CurrentHasQuantum(s, idle);
      var q := s.quantum[s.current];
      TickCounts(s, idle);
      InvDefined(s, Tick, idle);
      NextKeepsInv(s, Tick, idle);
      var u := Next(s, Tick).value;
      assert ([Tick] + Ticks(n - 1))[1..] == Ticks(n - 1);
      TicksCountDown(u, n - 1, idle);
      assert u.quantum[s.current := q - n] == s.quantum[s.current := q - n];
    }
  }

  lemma CurrentHasQuantum(s: State, idle: int)
    requires Inv(s, idle)
    ensures s.current in s.quantum
  {
  }

  /** With quantum q, the q-th tick in a row is a turn, and none before it is. */
  lemma TurnAtQuantum(s: State, n: nat, idle: int)
    requires Inv(s, idle) && n < s.quantum[s.current]
    ensures Run(s, Ticks(n)).Some? && (Turn(Run(s, Ticks(n)).value, Tick) <==> n + 1 == s.quantum[s.current])
  {
    hide Inv;
    CurrentHasQuantum(s, idle);
    TicksCountDown(s, n, idle);
  }

  // ---- how soon a thread runs

  function TickCount(ops: seq<Op>): nat {
    if ops == [] then 0 else (if ops[0].Tick? then 1 else 0) + TickCount(ops[1..])
  }

  /** What is left of the quantum of the current thread after a quiet step. */
  lemma QuietQuantum(s: State, op: Op, idle: int)
    requires Inv(s, idle) && Allowed(s, op, idle) && Woken(s, op) == [] && !Departs(op) && !Turn(s, op)
    ensures Next(s, op).Some?
    ensures var u := Next(s, op).value;
      && s.current in s.quantum && u.current == s.current && u.current in u.quantum
      && u.quantum[u.current] == s.quantum[s.current] - if op.Tick? then 1 else 0
  {
    hide Inv, Woken;
    CurrentHasQuantum(s, idle);
    QuantumAfter(s, op, idle, s.current);
    SameCurrent(s, op, idle);
  }

  lemma SameCurrent(s: State, op: Op, idle: int)
    requires Inv(s, idle) && Allowed(s, op, idle) && !Departs(op) && !Turn(s, op)
    ensures Next(s, op).Some? && Next(s, op).value.current == s.current
  {
    hide Partition, FutureOk, Without, Rotate, Take, PutHead;
    InvDefined(s, op, idle);
    NextKeepsInv(s, op, idle);
    if op.Update? {
      UpdateKeepsCurrent(s, idle);
    }
  }

  lemma UpdateKeepsCurrent(s: State, idle: int)
    requires Inv(s, idle) && WellTyped(s)
    ensures UpdateStep(s).current == s.current
  {
    hide Partition, Distinct, Ids, Ordered, Drain;
    if Releases(s.future) {
      CountdownKeeps(s.queues.Keys, s.future);
      IdAt(s.future, 0);
      DrainKeepsInv(s.(future := Countdown(s.future)), s.future[0].queue, idle);
    }
  }

  /** In a quiet run the thread at position k is switched to within 100 * k ticks and what is left of the current
      quantum. */
  lemma {:induction false} SwitchedWithin(s: State, ops: seq<Op>, idle: int, t: int) returns (j: nat)
    requires Inv(s, idle) && Permitted(s, ops, idle) && Quiet(s, ops) && At(s.queues, RQ, t)
    requires s.current in s.quantum && TickCount(ops) >= 100 * Position(s, t) + s.quantum[s.current]
    ensures j < |ops| && Run(s, ops[..j + 1]).Some? && Run(s, ops[..j + 1]).value.current == t
    decreases |ops|
  {
    hide Inv, Next, Allowed, Position, Woken, Turn;
    QuantumBounds(s, idle);
    var op, rest := ops[0], ops[1..];
    NextKeepsInv(s, op, idle);
    PositionAfter(s, op, idle, t);
    var u := Next(s, op).value;
    QuantumBounds(u, idle);
    if Turn(s, op) && Position(s, t) == 0 {
      TurnSwitches(s, op, idle, t);
      j := 0;
      assert ops[..1] == [op];
      RunOne(s, op);
    } else {
      if !Turn(s, op) {
        QuietQuantum(s, op, idle);
      }
      var i := SwitchedWithin(u, rest, idle, t);
      j := i + 1;
      RunCons(s, ops, i + 1);
    }
  }

  lemma QuantumBounds(s: State, idle: int)
    requires Inv(s, idle)
    ensures s.current in s.quantum && 1 <= s.quantum[s.current] <= 100
  {
  }

  lemma RunOne(s: State, op: Op)
    ensures Run(s, [op]) == Next(s, op)
  {
    hide Next;
  }

  lemma RunCons(s: State, ops: seq<Op>, n: nat)
    requires n < |ops| && Next(s, ops[0]).Some?
    ensures Run(s, ops[..n + 1]) == Run(Next(s, ops[0]).value, ops[1..][..n])
  {
    hide Next;
    assert ops[..n + 1][1..] == ops[1..][..n];
  }

  /** In a quiet run the thread at position k is switched to within 100 * (k + 1) ticks. */
  lemma RunsWithin(s: State, ops: seq<Op>, idle: int, t: int) returns (j: nat)
    requires Inv(s, idle) && Permitted(s, ops, idle) && Quiet(s, ops) && At(s.queues, RQ, t)
    requires TickCount(ops) >= 100 * (Position(s, t) + 1)
    ensures j < |ops| && Run(s, ops[..j + 1]).Some? && Run(s, ops[..j + 1]).value.current == t
  {
    hide Inv, Position, Quiet, Permitted, TickCount, Run;
    QuantumBounds(s, idle);
    j := SwitchedWithin(s, ops, idle, t);
  }
}
