/** The scheduler of kernel/sched0.c and the timers of kernel/timecore.c on linked rings, proved to take the steps
    of module Scheduling. */
module Kernel {
  import opened Wrappers
  import opened Ring
  import opened KList0
  import opened Queues
  import opened DeltaList
  import opened Scheduling
  import opened Threads

  function Slots(ids: seq<int>): (r: seq<Node>)
    ensures |r| == |ids| && forall i :: 0 <= i < |ids| ==> r[i] == Slot(ids[i])
  {
    seq(|ids|, i requires 0 <= i < |ids| => Slot(ids[i]))
  }

  function FutureRing(ids: seq<int>): (r: seq<Node>)
    ensures |r| == |ids| + 1
  {
    [Future] + Slots(ids)
  }

  lemma FutureRingNodes(ids: seq<int>)
    ensures forall x :: x in FutureRing(ids) <==> x == Future || (x.Slot? && x.interval in ids)
  {
    forall x ensures x in FutureRing(ids) <==> x == Future || (x.Slot? && x.interval in ids) {
      if x.Slot? && x.interval in ids {
        var i :| 0 <= i < |ids| && ids[i] == x.interval;
        assert FutureRing(ids)[i + 1] == x;
      }
    }
  }

  /** The list node that stands for position i of the timer list; past the end it is the head again. */
  function NodeAt(ids: seq<int>, i: nat): Node
    requires i <= |ids|
  {
    if i < |ids| then Slot(ids[i]) else Future
  }

  lemma FutureRingAt(ids: seq<int>, i: nat)
    requires i <= |ids|
    ensures FutureRing(ids)[i] == if i == 0 then Future else Slot(ids[i - 1])
    ensures After(FutureRing(ids), i) == NodeAt(ids, i)
  {
  }

  lemma FutureRingInsert(ids: seq<int>, i: nat, id: int)
    requires i <= |ids|
    ensures var r, k := FutureRing(ids), if i < |ids| then i + 1 else 0;
      r[k] == NodeAt(ids, i) && InsertBefore(r, k, Slot(id)) == FutureRing(ids[..i] + [id] + ids[i..])
  {
    var ids' := ids[..i] + [id] + ids[i..];
    var a, b := InsertAfter(FutureRing(ids), i, Slot(id)), FutureRing(ids');
    forall k | 0 <= k < |a| ensures a[k] == b[k] {
      assert k > 0 ==> b[k] == Slot(ids'[k - 1]);
    }
  }

  lemma FutureRingRemove(ids: seq<int>)
    requires ids != []
    ensures FutureRing(ids)[1] == Slot(ids[0]) && RemoveAt(FutureRing(ids), 1) == FutureRing(ids[1..])
  {
  }

  ghost predicate Timed(ids: seq<int>, ticks: map<int, nat>) { forall i :: 0 <= i < |ids| ==> ids[i] in ticks }

  /** The timer list by value. */
  ghost function Intervals(ids: seq<int>, ticks: map<int, nat>): (f: seq<Interval>)
    requires Timed(ids, ticks)
    ensures |f| == |ids| && forall i :: 0 <= i < |ids| ==> f[i] == Interval(ticks[ids[i]], ids[i])
  {
    seq(|ids|, i requires 0 <= i < |ids| => Interval(ticks[ids[i]], ids[i]))
  }

  /** Changes to a thread queue leave the timer list. */
  lemma FutureKept(next: map<Node, Node>, prev: map<Node, Node>, next': map<Node, Node>, prev': map<Node, Node>,
                   q: int, s: seq<int>, t: int, ids: seq<int>)
    requires IsRing(next, prev, FutureRing(ids)) && Local(next, prev, next', prev', q, s, t)
    ensures IsRing(next', prev', FutureRing(ids))
  {
    hide IsRing, SameOutside, QueueRing, FutureRing;
    QueueRingNodes(q, s);
    FutureRingNodes(ids);
    RingOutside(next, prev, next', prev', QueueRing(q, s) + [Krunq(t)], FutureRing(ids));
  }

  lemma PutFresh(qs: Queues, q: int, t: int)
    ensures PutHead(qs[q := []], q, t) == qs[q := [t]]
  {
    assert [t] + [] == [t];
  }

  /** The state from which the first thread is put on the run queue. */
  lemma FirstState(s: State, tmp: int)
    requires s.queues == map[RQ := []][tmp := [s.current]] && tmp != RQ && s.future == [] && s.leaving == {}
    ensures Inv(Wake(s, tmp), s.current)
  {
    TakeHead([s.current]);
    assert [s.current][1..] == [] && [s.current] + [] == [s.current];
    var r := Wake(s, tmp);
    assert r.queues == map[RQ := [s.current]][tmp := []];
    forall p, t ensures At(r.queues, p, t) <==> p == RQ && t == s.current {
    }
  }

  lemma DrainStep(s: State, q: int)
    requires RQ in s.queues && q in s.queues && q != RQ
    ensures Drain(s, q) == Drain(Wake(s, q), q)
    ensures s.queues[q] != [] ==> Wake(s, q).queues[q] == s.queues[q][1..]
  {
    if s.queues[q] != [] {
      TakeHead(s.queues[q]);
    }
  }

  lemma QueueFreed(next: map<Node, Node>, prev: map<Node, Node>, heads: map<int, Option<int>>, qs: Queues, q: int)
    requires Linked(next, prev, heads, qs) && q in qs && qs[q] == []
    ensures Linked(next, prev, heads, qs - {q})
  {
    hide IsRing, QueueRing;
    forall p, x ensures At(qs - {q}, p, x) <==> At(qs, p, x) {
    }
  }

  lemma ThreadAdded(next: map<Node, Node>, prev: map<Node, Node>, next': map<Node, Node>, prev': map<Node, Node>,
                    heads: map<int, Option<int>>, qs: Queues, t: int)
    requires Linked(next, prev, heads, qs) && t !in heads && IsRing(next', prev', [Krunq(t)])
    requires SameOutside(next, next', [Krunq(t)]) && SameOutside(prev, prev', [Krunq(t)])
    ensures Linked(next', prev', heads[t := None], qs)
  {
    hide IsRing, SameOutside, QueueRing;
    forall q | q in qs ensures IsRing(next', prev', QueueRing(q, qs[q])) {
      QueueRingNodes(q, qs[q]);
      assert !At(qs, q, t);
      RingOutside(next, prev, next', prev', [Krunq(t)], QueueRing(q, qs[q]));
    }
    forall x | x in heads && heads[x].None? ensures IsRing(next', prev', [Krunq(x)]) {
      RingOutside(next, prev, next', prev', [Krunq(t)], [Krunq(x)]);
    }
  }

  /** The timer list after the first interval has counted down, or has been taken off. */
  lemma IntervalsCountdown(next: map<Node, Node>, prev: map<Node, Node>, ids: seq<int>, ticks: map<int, nat>)
    requires IsRing(next, prev, FutureRing(ids)) && Timed(ids, ticks) && ids != []
    ensures var ticks' := ticks[ids[0] := Decrement(ticks[ids[0]])];
      && Timed(ids, ticks') && Timed(ids[1..], ticks')
      && Countdown(Intervals(ids, ticks)) == if ticks[ids[0]] == 0 then Intervals(ids[1..], ticks') else Intervals(ids, ticks')
  {
    DistinctIds(next, prev, ids);
  }

  /** Nodes that no queue uses can change. */
  lemma LinkedOutside(next: map<Node, Node>, prev: map<Node, Node>, next': map<Node, Node>, prev': map<Node, Node>,
                      heads: map<int, Option<int>>, qs: Queues, r: seq<Node>)
    requires Linked(next, prev, heads, qs) && SameOutside(next, next', r) && SameOutside(prev, prev', r)
    requires forall x | x in r :: !x.Krunq? && (x.Head? ==> x.queue !in qs)
    ensures Linked(next', prev', heads, qs)
  {
    hide IsRing, SameOutside, QueueRing;
    forall q | q in qs ensures IsRing(next', prev', QueueRing(q, qs[q])) {
      QueueRingNodes(q, qs[q]);
      RingOutside(next, prev, next', prev', r, QueueRing(q, qs[q]));
    }
    forall t | t in heads && heads[t].None? ensures IsRing(next', prev', [Krunq(t)]) {
      RingOutside(next, prev, next', prev', r, [Krunq(t)]);
    }
  }

  lemma QueueAdded(next: map<Node, Node>, prev: map<Node, Node>, next': map<Node, Node>, prev': map<Node, Node>,
                   heads: map<int, Option<int>>, qs: Queues, q: int)
    requires Linked(next, prev, heads, qs) && q !in qs && IsRing(next', prev', [Head(q)])
    requires SameOutside(next, next', [Head(q)]) && SameOutside(prev, prev', [Head(q)])
    ensures Linked(next', prev', heads, qs[q := []])
  {
    hide IsRing, SameOutside;
    LinkedOutside(next, prev, next', prev', heads, qs, [Head(q)]);
    assert QueueRing(q, []) == [Head(q)];
    var qs' := qs[q := []];
    forall p, x ensures At(qs', p, x) <==> At(qs, p, x) {
      AtUpdate(qs, q, [], p, x);
    }
  }

  lemma {:induction false} IdsOfIntervals(ids: seq<int>, ticks: map<int, nat>)
    requires Timed(ids, ticks)
    ensures Ids(Intervals(ids, ticks)) == ids
  {
    var f := Intervals(ids, ticks);
    forall i | 0 <= i < |ids| ensures Ids(f)[i] == ids[i] {
      IdAt(f, i);
    }
  }

  lemma TimedInsert(ids: seq<int>, ticks: map<int, nat>, i: nat, d: nat, id: int)
    requires Timed(ids, ticks) && i <= |ids|
    ensures Timed(ids[..i] + [id] + ids[i..], ticks[id := d])
  {
  }

  lemma DistinctIds(next: map<Node, Node>, prev: map<Node, Node>, ids: seq<int>)
    requires IsRing(next, prev, FutureRing(ids))
    ensures Distinct(ids)
  {
    forall i, j | 0 <= i < j < |ids| ensures ids[i] != ids[j] {
      assert FutureRing(ids)[i + 1] == Slot(ids[i]) && FutureRing(ids)[j + 1] == Slot(ids[j]);
    }
  }

  /** The timer list with a new interval in front of position i, which gives up the d ticks it holds. */
  lemma IntervalsInsert(next: map<Node, Node>, prev: map<Node, Node>, ids: seq<int>, ticks: map<int, nat>,
                        i: nat, d: nat, id: int)
    requires IsRing(next, prev, FutureRing(ids)) && Timed(ids, ticks) && id !in ids && i <= |ids|
    requires i < |ids| ==> d <= ticks[ids[i]]
    ensures var f, ids' := Intervals(ids, ticks), ids[..i] + [id] + ids[i..];
      var ticks' := (if i < |ids| then ticks[ids[i] := ticks[ids[i]] - d] else ticks)[id := d];
      && Timed(ids', ticks')
      && Intervals(ids', ticks') == if i == |ids| then f + [Interval(d, id)]
        else f[..i] + [Interval(d, id), Interval(f[i].ticks - d, f[i].queue)] + f[i + 1..]
  {
    DistinctIds(next, prev, ids);
  }

  lemma FirstRings(next: map<Node, Node>, prev: map<Node, Node>, main: int)
    requires IsRing(next, prev, [Future]) && IsRing(next, prev, [Head(RQ)]) && IsRing(next, prev, [Krunq(main)])
    ensures Linked(next, prev, map[main := None], map[RQ := []]) && IsRing(next, prev, FutureRing([]))
    ensures Partition(map[RQ := []])
  {
    hide IsRing;
    assert FutureRing([]) == [Future] && QueueRing(RQ, []) == [Head(RQ)];
  }

  lemma SameOutsideMore(m: map<Node, Node>, m': map<Node, Node>, r: seq<Node>, s: seq<Node>)
    requires SameOutside(m, m', r)
    ensures SameOutside(m, m', r + s)
  {
  }

  /** A thread in no queue is in no ring but its own. */
  lemma NotQueued(next: map<Node, Node>, prev: map<Node, Node>, heads: map<int, Option<int>>, qs: Queues, q: int, t: int)
    requires Linked(next, prev, heads, qs) && q in qs && t in heads && heads[t] == None
    ensures !Queued(qs, t) && Krunq(t) !in QueueRing(q, qs[q])
    ensures IsRing(next, prev, QueueRing(q, qs[q])) && |QueueRing(q, qs[q])| > 0 && QueueRing(q, qs[q])[0] == Head(q)
  {
    hide IsRing;
    QueueRingNodes(q, qs[q]);
    assert !At(qs, q, t);
  }

  lemma InQueue(next: map<Node, Node>, prev: map<Node, Node>, heads: map<int, Option<int>>, qs: Queues, t: int)
    requires Linked(next, prev, heads, qs) && t in heads && heads[t].Some?
    ensures At(qs, heads[t].value, t) && IsRing(next, prev, QueueRing(heads[t].value, qs[heads[t].value]))
  {
    hide IsRing, QueueRing;
  }

  lemma HeadIs(next: map<Node, Node>, prev: map<Node, Node>, heads: map<int, Option<int>>, qs: Queues, q: int, t: int)
    requires Linked(next, prev, heads, qs) && q in qs && t in qs[q]
    ensures t in heads && heads[t] == Some(q)
  {
    hide IsRing, QueueRing;
    assert At(qs, q, t);
  }

  lemma QueueIsRing(next: map<Node, Node>, prev: map<Node, Node>, heads: map<int, Option<int>>, qs: Queues, q: int)
    requires Linked(next, prev, heads, qs) && q in qs
    ensures var r := QueueRing(q, qs[q]); IsRing(next, prev, r) && Head(q) == r[0] && Head(q) in r
    ensures QueueRing(q, qs[q]) == [Head(q)] <==> qs[q] == []
  {
    hide IsRing;
    assert QueueRing(q, qs[q])[0] == Head(q);
  }

  /** The global state of the scheduler and the timers. */
  class Kernel {
    const links: Links<Node>
    var krunqHead: map<int, Option<int>>
    var quantum: map<int, nat>
    var current: int
    var needReschedule: bool
    var nextThread: int
    var ticksLeft: map<int, nat>

    ghost var queues: Queues
    ghost var ids: seq<int>
    ghost var leaving: set<int>

    ghost predicate Valid()
      reads this, links
    {
      && Partition(queues) && Linked(links.next, links.prev, krunqHead, queues)
      && IsRing(links.next, links.prev, FutureRing(ids)) && Timed(ids, ticksLeft)
    }

    ghost function Abs(): State
      requires Timed(ids, ticksLeft)
      reads this
    {
      State(queues, quantum, current, leaving, Intervals(ids, ticksLeft))
    }

    /** timers_init and sched0_init, with the first thread made but in no queue. */
    constructor (main: int)
      ensures Valid() && fresh(links) && queues == map[RQ := []] && ids == [] && krunqHead == map[main := None]
      ensures current == main && leaving == {} && !needReschedule
    {
      hide IsRing, Linked, FutureRing, SameOutside, Partition, QueueRing;
      links := new Links<Node>();
      krunqHead, quantum, current := map[main := None], map[], main;
      needReschedule, nextThread, ticksLeft := false, main, map[];
      queues, ids, leaving := map[RQ := []], [], {};
      new;
      links.Init(Future);
      ghost var n, p := links.next, links.prev;
      links.Init(Head(RQ));
      RingOutside(n, p, links.next, links.prev, [Head(RQ)], [Future]);
      n, p := links.next, links.prev;
      links.Init(Krunq(main));
      RingOutside(n, p, links.next, links.prev, [Krunq(main)], [Future]);
      RingOutside(n, p, links.next, links.prev, [Krunq(main)], [Head(RQ)]);
      FirstRings(links.next, links.prev, main);
    }

    /** __tq_insert_tail */
    method InsertTail(t: int, q: int)
      requires Valid() && q in queues && t in krunqHead && krunqHead[t] == None
      modifies this`krunqHead, this`queues, links
      ensures Valid() && queues == PutTail(old(queues), q, t) && krunqHead == old(krunqHead)[t := Some(q)]
    {
      hide IsRing, Linked, QueueRing, FutureRing, Partition;
      ghost var r, n, p := QueueRing(q, queues[q]), links.next, links.prev;
      NotQueued(n, p, krunqHead, queues, q, t);
      links.Prepend(Krunq(t), Head(q), r, 0);
      QueueRingTail(q, queues[q], t);
      PutLinked(n, p, links.next, links.prev, krunqHead, queues, PutTail(queues, q, t), q, t, queues[q] + [t]);
      FutureKept(n, p, links.next, links.prev, q, queues[q], t, ids);
      PutKeeps(queues, q, t, queues[q] + [t]);
      krunqHead := krunqHead[t := Some(q)];
      queues := PutTail(queues, q, t);
    }

    /** __tq_insert_head */
    method InsertHead(t: int, q: int)
      requires Valid() && q in queues && t in krunqHead && krunqHead[t] == None
      modifies this`krunqHead, this`queues, links
      ensures Valid() && queues == PutHead(old(queues), q, t) && krunqHead == old(krunqHead)[t := Some(q)]
    {
      hide IsRing, Linked, QueueRing, FutureRing, Partition;
      ghost var r, n, p := QueueRing(q, queues[q]), links.next, links.prev;
      NotQueued(n, p, krunqHead, queues, q, t);
      links.Append(Krunq(t), Head(q), r, 0);
      QueueRingHead(q, queues[q], t);
      PutLinked(n, p, links.next, links.prev, krunqHead, queues, PutHead(queues, q, t), q, t, [t] + queues[q]);
      FutureKept(n, p, links.next, links.prev, q, queues[q], t, ids);
      PutKeeps(queues, q, t, [t] + queues[q]);
      krunqHead := krunqHead[t := Some(q)];
      queues := PutHead(queues, q, t);
    }

    /** __tq_remove_thread; the queue is found through krunq_head. */
    method RemoveThread(t: int)
      requires Valid() && t in krunqHead && krunqHead[t].Some?
      modifies this`krunqHead, this`queues, links
      ensures Valid() && At(old(queues), old(krunqHead)[t].value, t)
      ensures queues == Take(old(queues), old(krunqHead)[t].value, t) && krunqHead == old(krunqHead)[t := None]
    {
      hide IsRing, Linked, QueueRing, FutureRing, Partition;
      ghost var q := krunqHead[t].value;
      InQueue(links.next, links.prev, krunqHead, queues, t);
      ghost var s, r, n, p := queues[q], QueueRing(q, queues[q]), links.next, links.prev;
      QueueRingWithout(q, s, t);
      links.Unlink(Krunq(t), r, IndexOf(s, t) + 1);
      SameOutsideMore(n, links.next, r, [Krunq(t)]);
      SameOutsideMore(p, links.prev, r, [Krunq(t)]);
      TakeLinked(n, p, links.next, links.prev, krunqHead, queues, q, t);
      FutureKept(n, p, links.next, links.prev, q, s, t, ids);
      TakeKeeps(queues, q, t);
      krunqHead := krunqHead[t := None];
      queues := Take(queues, q, t);
    }

    /** __tq_remove_head */
    method RemoveHead(q: int) returns (t: Option<int>)
      requires Valid() && q in queues
      modifies this`krunqHead, this`queues, links
      ensures Valid()
      ensures t == if old(queues)[q] == [] then None else Some(old(queues)[q][0])
      ensures t == None ==> queues == old(queues) && krunqHead == old(krunqHead)
      ensures t.Some? ==> queues == Take(old(queues), q, t.value) && krunqHead == old(krunqHead)[t.value := None]
      ensures t.Some? ==> t.value in krunqHead
    {
      hide IsRing, Linked, FutureRing, Partition;
      ghost var r := QueueRing(q, queues[q]);
      QueueIsRing(links.next, links.prev, krunqHead, queues, q);
      var empty := links.Empty(Head(q), r);
      t := None;
      if !empty {
        RingLinks(links.next, links.prev, r, 0);
        var first := links.next[Head(q)].thread;
        HeadIs(links.next, links.prev, krunqHead, queues, q, first);
        RemoveThread(first);
        t := Some(first);
      }
    }

    /** __tq_remove_tail */
    method RemoveTail(q: int) returns (t: Option<int>)
      requires Valid() && q in queues
      modifies this`krunqHead, this`queues, links
      ensures Valid()
      ensures t == if old(queues)[q] == [] then None else Some(old(queues)[q][|old(queues)[q]| - 1])
      ensures t == None ==> queues == old(queues) && krunqHead == old(krunqHead)
      ensures t.Some? ==> queues == Take(old(queues), q, t.value) && krunqHead == old(krunqHead)[t.value := None]
    {
      hide IsRing, Linked, FutureRing, Partition;
      ghost var r := QueueRing(q, queues[q]);
      QueueIsRing(links.next, links.prev, krunqHead, queues, q);
      var empty := links.Empty(Head(q), r);
      t := None;
      if !empty {
        RingLinks(links.next, links.prev, r, 0);
        var last := links.prev[Head(q)].thread;
        HeadIs(links.next, links.prev, krunqHead, queues, q, last);
        RemoveThread(last);
        t := Some(last);
      }
    }

    /** scheduler_enqueue */
    method Enqueue(from: int) returns (b: bool)
      requires Valid() && RQ in queues && from in queues && from != RQ
      modifies this`krunqHead, this`queues, this`quantum, links
      ensures Valid() && Abs() == Wake(old(Abs()), from) && (b <==> old(queues)[from] != [])
    {
      hide IsRing, Linked, FutureRing, Partition, Without;
      var t := RemoveHead(from);
      if t.Some? {
        quantum := quantum[t.value := MAX_QUANTUM];
        InsertHead(t.value, RQ);
      }
      b := t.Some?;
    }

    /** The head of the run queue goes to its tail. */
    method RotateRunQueue() returns (next: int)
      requires Valid() && RQ in queues && queues[RQ] != []
      modifies this`krunqHead, this`queues, links
      ensures Valid() && queues == Rotate(old(queues), RQ) && next == old(queues)[RQ][0]
      ensures krunqHead == old(krunqHead)[next := Some(RQ)]
    {
      hide IsRing, Linked, FutureRing, Partition, Without;
      TakeHead(queues[RQ]);
      var t := RemoveHead(RQ);
      next := t.value;
      InsertTail(next, RQ);
    }

    /** scheduler_dequeue, where no bug_on fires. */
    method Dequeue(to: int)
      requires Valid() && RQ in queues && to in queues && to != RQ && Leave(Abs(), to).Some?
      modifies this`krunqHead, this`queues, this`quantum, this`leaving, links
      ensures Valid() && Some(Abs()) == Leave(old(Abs()), to)
    {
      hide IsRing, Linked, FutureRing, Partition, Without;
      HeadIs(links.next, links.prev, krunqHead, queues, RQ, current);
      RemoveThread(current);
      NotQueued(links.next, links.prev, krunqHead, queues, RQ, current);
      assert !At(queues, RQ, current);
      var next := RotateRunQueue();
      quantum := quantum[current := MAX_QUANTUM];
      InsertTail(current, to);
      leaving := leaving + {current};
    }

    /** scheduler_tick, in interrupt context. */
    method Tick()
      requires Valid() && RQ in queues && current in quantum && TickStep(Abs()).Some? && !needReschedule
      modifies this`krunqHead, this`queues, this`quantum, this`needReschedule, this`nextThread, links
      ensures Valid() && Some(Abs().(current := if needReschedule then nextThread else current)) == TickStep(old(Abs()))
    {
      hide IsRing, Linked, FutureRing, Partition, Rotate;
      quantum := quantum[current := Decrement(quantum[current])];
      if quantum[current] == 0 {
        quantum := quantum[current := MAX_QUANTUM];
        assert quantum == old(quantum)[current := MAX_QUANTUM];
        var next := RotateRunQueue();
        if current != next {
          needReschedule := true;
          nextThread := next;
        }
      }
    }

    /** The timer interrupt: the tick, and the switch on the way out. */
    method TickInterrupt()
      requires Valid() && RQ in queues && current in quantum && TickStep(Abs()).Some? && !needReschedule
      modifies this`krunqHead, this`queues, this`quantum, this`needReschedule, this`nextThread, this`current, links
      ensures Valid() && Some(Abs()) == TickStep(old(Abs())) && !needReschedule
    {
      hide IsRing, Linked, FutureRing, Partition, TickStep;
      Tick();
      if needReschedule {
        needReschedule := false;
        current := nextThread;
      }
    }

    /** scheduler_yield, up to the switch. */
    method Yield()
      requires Valid() && RQ in queues && YieldStep(Abs()).Some?
      modifies this`krunqHead, this`queues, this`quantum, this`current, this`leaving, links
      ensures Valid() && Some(Abs()) == YieldStep(old(Abs()))
    {
      hide IsRing, Linked, FutureRing, Partition, Rotate;
      quantum := quantum[current := MAX_QUANTUM];
      var next := RotateRunQueue();
      leaving := leaving - {current};
      current := next;
    }

    /** tq_init */
    method NewQueue(q: int)
      requires Valid() && q !in queues
      modifies this`queues, links
      ensures Valid() && queues == old(queues)[q := []]
    {
      hide IsRing, Linked, FutureRing, Partition, SameOutside;
      ghost var n, p := links.next, links.prev;
      links.Init(Head(q));
      QueueAdded(n, p, links.next, links.prev, krunqHead, queues, q);
      FutureRingNodes(ids);
      RingOutside(n, p, links.next, links.prev, [Head(q)], FutureRing(ids));
      NewQueueKeeps(queues, q, []);
      queues := queues[q := []];
    }

    /** A new interval in front of position i of the timer list. */
    method NewInterval(id: int, d: nat, before: Node, ghost i: nat)
      requires Valid() && id !in ids && i <= |ids| && before == NodeAt(ids, i)
      modifies this`ids, this`ticksLeft, links
      ensures Valid() && ids == old(ids[..i] + [id] + ids[i..]) && ticksLeft == old(ticksLeft)[id := d]
    {
      hide IsRing, Linked, FutureRing, Partition, SameOutside, InsertBefore, NodeAt, Timed;
      ghost var n, p, r := links.next, links.prev, FutureRing(ids);
      links.Init(Slot(id));
      FutureRingNodes(ids);
      TimedInsert(ids, ticksLeft, i, d, id);
      LinkedOutside(n, p, links.next, links.prev, krunqHead, queues, [Slot(id)]);
      RingOutside(n, p, links.next, links.prev, [Slot(id)], r);
      ticksLeft := ticksLeft[id := d];
      n, p := links.next, links.prev;
      FutureRingInsert(ids, i, id);
      links.Prepend(Slot(id), before, r, if i < |ids| then i + 1 else 0);
      LinkedOutside(n, p, links.next, links.prev, krunqHead, queues, r + [Slot(id)]);
      ids := ids[..i] + [id] + ids[i..];
    }

    /** The search loop of tsleep. */
    method FindPlace(delay: nat, ghost id: int) returns (tmp: Node, d: nat, ghost i: nat)
      requires Valid()
      ensures i <= |ids| && tmp == NodeAt(ids, i) && Walked(Intervals(ids, ticksLeft), delay, id, i, d)
      ensures i < |ids| ==> d <= ticksLeft[ids[i]]
    {
      hide IsRing, Linked, FutureRing, Partition, Walked;
      ghost var f, r := Intervals(ids, ticksLeft), FutureRing(ids);
      FutureRingAt(ids, 0);
      RingLinks(links.next, links.prev, r, 0);
      WalkStart(f, delay, id);
      tmp, d, i := links.next[Future], delay, 0;
      while tmp != Future
        invariant i <= |ids| && tmp == NodeAt(ids, i) && Walked(f, delay, id, i, d)
        decreases |ids| - i
      {
        var ticks := ticksLeft[tmp.interval];
        if d <= ticks {
          return;
        }
        WalkStep(f, delay, id, i, d);
        FutureRingAt(ids, i + 1);
        RingLinks(links.next, links.prev, r, i + 1);
        d, tmp, i := d - ticks, links.next[tmp], i + 1;
      }
    }

    /** tsleep up to its yield; `id` is the interval that slice_alloc hands out. */
    method Tsleep(delay: nat, id: int)
      requires Valid() && WellTyped(Abs()) && id !in queues && SleepStep(Abs(), delay, id).Some?
      modifies this`krunqHead, this`queues, this`quantum, this`leaving, this`ids, this`ticksLeft, links
      ensures Valid() && Some(Abs()) == SleepStep(old(Abs()), delay, id)
    {
      hide IsRing, Linked, FutureRing, Partition, Walked, Insert, Leave, Ids;
      var tmp, d, i := FindPlace(delay, id);
      ghost var f := Intervals(ids, ticksLeft);
      WalkEnd(f, delay, id, i, d);
      IdsOfIntervals(ids, ticksLeft);
      if tmp != Future && d == ticksLeft[tmp.interval] {
        Dequeue(tmp.interval);
      } else {
        IntervalsInsert(links.next, links.prev, ids, ticksLeft, i, d, id);
        if tmp != Future {
          ticksLeft := ticksLeft[tmp.interval := ticksLeft[tmp.interval] - d];
        }
        NewQueue(id);
        NewInterval(id, d, tmp, i);
        Dequeue(id);
      }
    }

    /** The first interval leaves the timer list. */
    method UnlinkFirst(first: Node)
      requires Valid() && ids != [] && first == Slot(ids[0])
      modifies this`ids, links
      ensures Valid() && ids == old(ids)[1..]
    {
      hide IsRing, Linked, FutureRing, Partition, SameOutside, RemoveAt;
      ghost var n, p, r := links.next, links.prev, FutureRing(ids);
      FutureRingNodes(ids);
      FutureRingRemove(ids);
      links.Unlink(first, r, 1);
      LinkedOutside(n, p, links.next, links.prev, krunqHead, queues, r);
      ids := ids[1..];
    }

    /** Empties the queue of a released interval and gives its memory back. */
    method WakeAll(q: int)
      requires Valid() && RQ in queues && q in queues && q != RQ
      modifies this`krunqHead, this`queues, this`quantum, links
      ensures Valid() && var r := Drain(old(Abs()), q); Abs() == r.(queues := r.queues - {q})
    {
      hide IsRing, Linked, FutureRing, Partition;
      var more := true;
      while more
        invariant Valid() && RQ in queues && q in queues && Drain(Abs(), q) == Drain(old(Abs()), q)
        invariant !more ==> queues[q] == []
        decreases |queues[q]|, more
      {
        DrainStep(Abs(), q);
        more := Enqueue(q);
      }
      QueueFreed(links.next, links.prev, krunqHead, queues, q);
      DropQueueKeeps(queues, q);
      queues := queues - {q};
    }

    /** update_timers */
    method UpdateTimers()
      requires Valid() && WellTyped(Abs())
      modifies this`krunqHead, this`queues, this`quantum, this`ids, this`ticksLeft, links
      ensures Valid() && Abs() == UpdateStep(old(Abs()))
    {
      hide IsRing, Linked, FutureRing, Partition, Drain, Ids;
      ghost var r := FutureRing(ids);
      FutureRingAt(ids, 0);
      RingLinks(links.next, links.prev, r, 0);
      var first := links.next[Future];
      if first != Future {
        var ticks := ticksLeft[first.interval];
        IntervalsCountdown(links.next, links.prev, ids, ticksLeft);
        IdsOfIntervals(ids, ticksLeft);
        ticksLeft := ticksLeft[first.interval := Decrement(ticks)];
        if ticks == 0 {
          UnlinkFirst(first);
          WakeAll(first.interval);
        }
      }
    }

    /** thread_create, and the queue of its own a new thread is first put into. */
    method Create(t: int, q: int)
      requires Valid() && t !in krunqHead && q !in queues
      modifies this`krunqHead, this`queues, links
      ensures Valid() && Abs() == old(Abs()).(queues := old(queues)[q := [t]])
    {
      hide IsRing, Linked, FutureRing, Partition, SameOutside;
      ghost var n, p := links.next, links.prev;
      links.Init(Krunq(t));
      ThreadAdded(n, p, links.next, links.prev, krunqHead, queues, t);
      FutureRingNodes(ids);
      RingOutside(n, p, links.next, links.prev, [Krunq(t)], FutureRing(ids));
      krunqHead := krunqHead[t := None];
      NewQueue(q);
      InsertHead(t, q);
      PutFresh(old(queues), q, t);
    }

    /** The first thread puts itself on the run queue, through a queue of its own. */
    method Start(tmp: int)
      requires Valid() && queues == map[RQ := []] && ids == [] && leaving == {} && tmp != RQ
      requires current in krunqHead && krunqHead[current] == None
      modifies this`krunqHead, this`queues, this`quantum, links
      ensures Valid() && Inv(Abs(), current)
    {
      hide IsRing, Linked, FutureRing, Partition, Without;
      NewQueue(tmp);
      InsertHead(current, tmp);
      PutFresh(map[RQ := []], tmp, current);
      FirstState(Abs(), tmp);
      var ok := Enqueue(tmp);
      assert ok;
    }
  }
}
