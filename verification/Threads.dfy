/** Thread queues as rings of embedded nodes: include/thread.h over include/klist0.h. */
module Threads {
  import opened Wrappers
  import opened Ring
  import opened KList0
  import opened Queues

  /** The list nodes: of a queue, of a thread, of the timer list and of its intervals. */
  datatype Node = Head(queue: int) | Krunq(thread: int) | Future | Slot(interval: int)

  function Krunqs(s: seq<int>): (r: seq<Node>)
    ensures |r| == |s| && forall i :: 0 <= i < |s| ==> r[i] == Krunq(s[i])
  {
    seq(|s|, i requires 0 <= i < |s| => Krunq(s[i]))
  }

  function QueueRing(q: int, s: seq<int>): seq<Node> { [Head(q)] + Krunqs(s) }

  lemma QueueRingNodes(q: int, s: seq<int>)
    ensures forall x :: x in QueueRing(q, s) <==> x == Head(q) || (x.Krunq? && x.thread in s)
  {
    forall x ensures x in QueueRing(q, s) <==> x == Head(q) || (x.Krunq? && x.thread in s) {
      if x.Krunq? && x.thread in s {
        var i :| 0 <= i < |s| && s[i] == x.thread;
        assert QueueRing(q, s)[i + 1] == x;
      }
    }
  }

  lemma QueueRingTail(q: int, s: seq<int>, t: int)
    ensures InsertBefore(QueueRing(q, s), 0, Krunq(t)) == QueueRing(q, s + [t])
  {
  }

  lemma QueueRingHead(q: int, s: seq<int>, t: int)
    ensures InsertAfter(QueueRing(q, s), 0, Krunq(t)) == QueueRing(q, [t] + s)
  {
  }

  lemma QueueRingRemove(q: int, s: seq<int>, k: nat)
    requires k < |s|
    ensures RemoveAt(QueueRing(q, s), k + 1) == QueueRing(q, RemoveAt(s, k)) && QueueRing(q, s)[k + 1] == Krunq(s[k])
  {
    var a, b := RemoveAt(QueueRing(q, s), k + 1), QueueRing(q, RemoveAt(s, k));
    forall i | 0 <= i < |a| ensures a[i] == b[i] {
      assert i > 0 ==> a[i] == Krunq(if i <= k then s[i - 1] else s[i]);
    }
  }

  lemma QueueRingWithout(q: int, s: seq<int>, t: int)
    requires t in s
    ensures IndexOf(s, t) + 1 < |QueueRing(q, s)| && QueueRing(q, s)[IndexOf(s, t) + 1] == Krunq(t)
    ensures RemoveAt(QueueRing(q, s), IndexOf(s, t) + 1) == QueueRing(q, Without(s, t))
  {
    hide IndexOf, RemoveAt;
    QueueRingRemove(q, s, IndexOf(s, t));
  }

  /** The rings hold exactly the threads of each queue in order, krunq_head names the queue, and a thread in no
      queue is a ring of its own. */
  ghost predicate Linked(next: map<Node, Node>, prev: map<Node, Node>, heads: map<int, Option<int>>, qs: Queues) {
    && (forall q | q in qs :: IsRing(next, prev, QueueRing(q, qs[q])))
    && (forall t | t in heads && heads[t].None? :: IsRing(next, prev, [Krunq(t)]))
    && (forall q, t | At(qs, q, t) :: t in heads && heads[t] == Some(q))
    && (forall t | t in heads && heads[t].Some? :: At(qs, heads[t].value, t))
  }

  /** Links outside the ring of q and the node of t are as before. */
  ghost predicate Local(next: map<Node, Node>, prev: map<Node, Node>, next': map<Node, Node>, prev': map<Node, Node>,
                        q: int, s: seq<int>, t: int) {
    SameOutside(next, next', QueueRing(q, s) + [Krunq(t)]) && SameOutside(prev, prev', QueueRing(q, s) + [Krunq(t)])
  }

  /** A change to one queue leaves the rings of the others. */
  lemma OthersLinked(next: map<Node, Node>, prev: map<Node, Node>, next': map<Node, Node>, prev': map<Node, Node>,
                     q: int, s: seq<int>, t: int, p: int, u: seq<int>)
    requires IsRing(next, prev, QueueRing(p, u)) && Local(next, prev, next', prev', q, s, t)
    requires p != q && t !in u && forall x | x in u :: x !in s
    ensures IsRing(next', prev', QueueRing(p, u))
  {
    hide IsRing, SameOutside, QueueRing;
    QueueRingNodes(q, s);
    QueueRingNodes(p, u);
    RingOutside(next, prev, next', prev', QueueRing(q, s) + [Krunq(t)], QueueRing(p, u));
  }

  lemma AloneLinked(next: map<Node, Node>, prev: map<Node, Node>, next': map<Node, Node>, prev': map<Node, Node>,
                    q: int, s: seq<int>, t: int, x: int)
    requires IsRing(next, prev, [Krunq(x)]) && Local(next, prev, next', prev', q, s, t) && x != t && x !in s
    ensures IsRing(next', prev', [Krunq(x)])
  {
    hide IsRing, SameOutside;
    QueueRingNodes(q, s);
    RingOutside(next, prev, next', prev', QueueRing(q, s) + [Krunq(t)], [Krunq(x)]);
  }

  /** Threads t and those of queue q are the only ones that change: all other rings survive. */
  lemma RestLinked(next: map<Node, Node>, prev: map<Node, Node>, next': map<Node, Node>, prev': map<Node, Node>,
                   heads: map<int, Option<int>>, qs: Queues, q: int, t: int)
    requires Linked(next, prev, heads, qs) && q in qs && Local(next, prev, next', prev', q, qs[q], t)
    requires t in heads && (heads[t] == None || heads[t] == Some(q))
    ensures forall p | p in qs && p != q :: IsRing(next', prev', QueueRing(p, qs[p]))
    ensures forall x | x in heads && x != t && heads[x].None? :: IsRing(next', prev', [Krunq(x)])
  {
    hide IsRing, Local;
    forall p | p in qs && p != q ensures IsRing(next', prev', QueueRing(p, qs[p])) {
      forall x | x in qs[p] ensures x !in qs[q] && x != t {
        assert At(qs, p, x);
        assert x in qs[q] ==> At(qs, q, x);
      }
      OthersLinked(next, prev, next', prev', q, qs[q], t, p, qs[p]);
    }
    forall x | x in heads && x != t && heads[x].None? ensures IsRing(next', prev', [Krunq(x)]) {
      assert x in qs[q] ==> At(qs, q, x);
      AloneLinked(next, prev, next', prev', q, qs[q], t, x);
    }
  }

  lemma PutAt(qs: Queues, qs': Queues, q: int, t: int, s: seq<int>)
    requires q in qs && qs' == qs[q := s] && (s == [t] + qs[q] || s == qs[q] + [t])
    ensures qs'.Keys == qs.Keys && forall p, x :: At(qs', p, x) <==> At(qs, p, x) || (p == q && x == t)
  {
    forall p, x ensures At(qs', p, x) <==> At(qs, p, x) || (p == q && x == t) {
      AtUpdate(qs, q, s, p, x);
      assert At(qs, q, x) <==> x in qs[q];
    }
  }

  lemma PutLinked(next: map<Node, Node>, prev: map<Node, Node>, next': map<Node, Node>, prev': map<Node, Node>,
                  heads: map<int, Option<int>>, qs: Queues, qs': Queues, q: int, t: int, s: seq<int>)
    requires Linked(next, prev, heads, qs) && q in qs && Local(next, prev, next', prev', q, qs[q], t)
    requires t in heads && heads[t] == None && IsRing(next', prev', QueueRing(q, s))
    requires qs' == qs[q := s] && (s == [t] + qs[q] || s == qs[q] + [t])
    ensures Linked(next', prev', heads[t := Some(q)], qs')
  {
    hide IsRing, Local, QueueRing, At;
    RestLinked(next, prev, next', prev', heads, qs, q, t);
    PutAt(qs, qs', q, t, s);
  }

  lemma TakeLinked(next: map<Node, Node>, prev: map<Node, Node>, next': map<Node, Node>, prev': map<Node, Node>,
                   heads: map<int, Option<int>>, qs: Queues, q: int, t: int)
    requires Linked(next, prev, heads, qs) && Partition(qs) && At(qs, q, t) && Local(next, prev, next', prev', q, qs[q], t)
    requires IsRing(next', prev', QueueRing(q, Without(qs[q], t))) && IsRing(next', prev', [Krunq(t)])
    ensures Linked(next', prev', heads[t := None], Take(qs, q, t))
  {
    hide IsRing, Local, QueueRing, Without, Partition;
    RestLinked(next, prev, next', prev', heads, qs, q, t);
    TakeKeeps(qs, q, t);
  }
}
