/** When a sleeper wakes: what the timer list of kernel/timecore.c guarantees over whole runs. */
module Sleeping {
  import opened Wrappers
  import opened Ring
  import opened Queues
  import opened DeltaList
  import opened Scheduling

  /** Thread t sleeps in interval i. */
  ghost predicate SleepsAt(s: State, t: int, i: nat) {
    i < |s.future| && At(s.queues, s.future[i].queue, t)
  }

  /** tsleep puts the caller to sleep for exactly `delay` ticks. */
  lemma SleepGivesDelay(s: State, delay: nat, id: int, idle: int)
    requires Inv(s, idle) && Allowed(s, Sleep(delay, id), idle)
    ensures var r, j := SleepStep(s, delay, id).value, Place(s.future, delay);
      r.future == Insert(s.future, delay, id).0 && SleepsAt(r, s.current, j) && Due(r.future, j) == delay
  {
    hide Inv, Insert, Place;
    SleepKeepsInv(s, delay, id, idle);
    InsertGivesDelay(s.future, delay, id);
  }

  /** Steps other than sleeps and updates do not disturb a sleeper. */
  lemma OthersKeepSleep(s: State, op: Op, idle: int, t: int, i: nat)
    requires Inv(s, idle) && Allowed(s, op, idle) && SleepsAt(s, t, i) && !op.Sleep? && !op.Update?
    ensures Next(s, op).Some? && Next(s, op).value.future == s.future && SleepsAt(Next(s, op).value, t, i)
  {
    InvDefined(s, op, idle);
    NextKeepsInv(s, op, idle);
    IdAt(s.future, i);
    hide Ids, Defined, Ordered, Distinct;
    match op
    case Enqueue(q) =>
      WakeKeepsInv(s, q, idle);
      assert s.queues[q] != [] ==> At(s.queues, q, s.queues[q][0]);
    case Dequeue(q) => LeaveKeepsInv(s, q, idle);
    case Tick => RotateKeeps(s.queues, RQ);
    case Yield => RotateKeeps(s.queues, RQ);
    case Spawn(x, q) => SpawnKeepsInv(s, x, q, s.queues[q := [x]], idle);
  }

  /** Another thread's sleep leaves a sleeper its time. */
  lemma SleepKeepsSleep(s: State, delay: nat, id: int, idle: int, t: int, i: nat)
    requires Inv(s, idle) && Allowed(s, Sleep(delay, id), idle) && SleepsAt(s, t, i)
    ensures var r, j := SleepStep(s, delay, id).value, Moved(s.future, delay, i);
      SleepsAt(r, t, j) && Due(r.future, j) == Due(s.future, i)
  {
    hide Ids, Ordered, Distinct, Insert, Place, Moved, Due;
    SleepKeepsInv(s, delay, id, idle);
    SleepFuture(s, delay, id);
    InsertKeepsOthers(s.future, delay, id, i);
    IdAt(s.future, i);
    assert t != s.current;
  }

  lemma SleepFuture(s: State, delay: nat, id: int)
    requires WellTyped(s) && id !in s.queues && SleepStep(s, delay, id).Some?
    ensures SleepStep(s, delay, id).value.future == Insert(s.future, delay, id).0
  {
  }

  /** An update takes one tick off every sleeper's time, or wakes the sleepers of the first interval. */
  lemma UpdateAndSleep(s: State, idle: int, t: int, i: nat)
    requires Inv(s, idle) && SleepsAt(s, t, i)
    ensures var u := UpdateStep(s);
      if !Releases(s.future) then SleepsAt(u, t, i) && Due(u.future, i) == Due(s.future, i) - 1
      else if i > 0 then SleepsAt(u, t, i - 1) && Due(u.future, i - 1) == Due(s.future, i)
      else At(u.queues, RQ, t)
  {
    hide Partition, RunOk, Ids, Ordered, Due, UpdateStep;
    InvDefined(s, Update, idle);
    UpdateKeepsInv(s, idle);
    CountdownDue(s.future, i);
    IdAt(s.future, 0);
    IdAt(s.future, i);
  }

  /** The update that wakes the sleepers of interval i. */
  predicate Wakes(s: State, op: Op, i: nat) { op.Update? && Releases(s.future) && i == 0 }

  /** A sleeper's time goes down by at most one per update, and by nothing else. Without further sleeps, its time
      and its position together go down by exactly one per update. */
  lemma StepAndSleep(s: State, op: Op, idle: int, t: int, i: nat) returns (j: nat)
    requires Inv(s, idle) && Allowed(s, op, idle) && SleepsAt(s, t, i) && !Wakes(s, op, i)
    ensures Next(s, op).Some? && SleepsAt(Next(s, op).value, t, j)
    ensures Due(Next(s, op).value.future, j) >= Due(s.future, i) - if op.Update? then 1 else 0
    ensures !op.Sleep? ==> Due(Next(s, op).value.future, j) + j == Due(s.future, i) + i - if op.Update? then 1 else 0
  {
    hide Inv, Due, UpdateStep, SleepStep, Wake, Leave, TickStep, YieldStep, Releases;
    InvDefined(s, op, idle);
    NextKeepsInv(s, op, idle);
    match op
    case Sleep(delay, id) =>
      SleepKeepsSleep(s, delay, id, idle, t, i);
      j := Moved(s.future, delay, i);
    case Update =>
      UpdateAndSleep(s, idle, t, i);
      j := if Releases(s.future) then i - 1 else i;
    case _ =>
      OthersKeepSleep(s, op, idle, t, i);
      j := i;
  }

  function Updates(ops: seq<Op>): nat {
    if ops == [] then 0 else (if ops[0].Update? then 1 else 0) + Updates(ops[1..])
  }

  ghost predicate NoSleeps(ops: seq<Op>) { forall op | op in ops :: !op.Sleep? }

  /** No sleeper is released early: as long as there have been no more updates than it has ticks left, it sleeps
      on, whatever else happens. */
  lemma {:induction false} NotEarly(s: State, ops: seq<Op>, idle: int, t: int, i: nat) returns (j: nat)
    requires Inv(s, idle) && Permitted(s, ops, idle) && SleepsAt(s, t, i) && Updates(ops) <= Due(s.future, i)
    ensures Run(s, ops).Some? && SleepsAt(Run(s, ops).value, t, j)
    ensures Due(Run(s, ops).value.future, j) >= Due(s.future, i) - Updates(ops)
    decreases |ops|
  {
    hide Inv, Next, Allowed, SleepsAt;
    if ops == [] {
      j := i;
    } else {
      HeadDue(s, idle, t, i);
      j := StepAndSleep(s, ops[0], idle, t, i);
      NextKeepsInv(s, ops[0], idle);
      j := NotEarly(Next(s, ops[0]).value, ops[1..], idle, t, j);
    }
  }

  lemma HeadDue(s: State, idle: int, t: int, i: nat)
    requires SleepsAt(s, t, i)
    ensures i < |s.future| && (Releases(s.future) && i == 0 ==> Due(s.future, i) == 0)
    ensures Due(s.future, i) + i == 0 ==> Releases(s.future) && i == 0
  {
  }

  /** A call of tsleep(delay) returns no earlier than the update number delay + 1. */
  lemma TsleepNotEarly(s: State, delay: nat, id: int, ops: seq<Op>, idle: int) returns (j: nat)
    requires Inv(s, idle) && Permitted(s, [Sleep(delay, id)] + ops, idle) && Updates(ops) <= delay
    ensures Run(s, [Sleep(delay, id)] + ops).Some? && SleepsAt(Run(s, [Sleep(delay, id)] + ops).value, s.current, j)
  {
    hide Inv, Due, SleepsAt, SleepStep;
    var op := Sleep(delay, id);
    assert ([op] + ops)[0] == op && ([op] + ops)[1..] == ops;
    InvDefined(s, op, idle);
    NextKeepsInv(s, op, idle);
    SleepGivesDelay(s, delay, id, idle);
    j := NotEarly(Next(s, op).value, ops, idle, s.current, Place(s.future, delay));
  }

  /** Without further sleeps, a sleeper in interval i with d ticks left sleeps through d + i updates. */
  lemma {:induction false} SleepsOn(s: State, ops: seq<Op>, idle: int, t: int, i: nat) returns (j: nat)
    requires Inv(s, idle) && Permitted(s, ops, idle) && SleepsAt(s, t, i)
    requires NoSleeps(ops) && Updates(ops) <= Due(s.future, i) + i
    ensures Run(s, ops).Some? && SleepsAt(Run(s, ops).value, t, j)
    ensures Due(Run(s, ops).value.future, j) + j == Due(s.future, i) + i - Updates(ops)
    decreases |ops|
  {
    hide Inv, Next, Allowed, SleepsAt;
    if ops == [] {
      j := i;
    } else {
      HeadDue(s, idle, t, i);
      j := StepAndSleep(s, ops[0], idle, t, i);
      NextKeepsInv(s, ops[0], idle);
      j := SleepsOn(Next(s, ops[0]).value, ops[1..], idle, t, j);
    }
  }

  /** And is on the run queue after exactly one more. */
  lemma WakesExactly(s: State, ops: seq<Op>, idle: int, t: int, i: nat)
    requires Inv(s, idle) && Permitted(s, ops, idle) && SleepsAt(s, t, i)
    requires NoSleeps(ops) && Updates(ops) == Due(s.future, i) + i
    ensures Run(s, ops).Some? && Next(Run(s, ops).value, Update).Some?
    ensures At(Next(Run(s, ops).value, Update).value.queues, RQ, t)
  {
    hide Inv, Due, UpdateStep;
    var j := SleepsOn(s, ops, idle, t, i);
    RunKeepsInv(s, ops, idle);
    var r := Run(s, ops).value;
    InvDefined(r, Update, idle);
    HeadDue(r, idle, t, j);
    UpdateAndSleep(r, idle, t, j);
  }
}
