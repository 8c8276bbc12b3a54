/** Thread queues by value: which threads wait where, in order. */
module Queues {
  import opened Ring

  /** The threads of each queue, front first. */
  type Queues = map<int, seq<int>>

  /** Thread t waits in queue q. */
  ghost predicate At(qs: Queues, q: int, t: int) { q in qs && t in qs[q] }

  ghost predicate Queued(qs: Queues, t: int) { exists q :: At(qs, q, t) }

  /** Each queue lists a thread at most once, and no two queues list the same thread. */
  ghost predicate Partition(qs: Queues) {
    && (forall q | q in qs :: Distinct(qs[q]))
    && (forall p, q, t | At(qs, p, t) && At(qs, q, t) :: p == q)
  }

  /** t is in queue q now, and every other thread where it was. */
  ghost predicate Moves(qs: Queues, qs': Queues, t: int, q: int) {
    At(qs', q, t) && forall p, x | x != t :: At(qs', p, x) <==> At(qs, p, x)
  }

  function Take(qs: Queues, q: int, t: int): Queues
    requires q in qs && t in qs[q]
  {
    qs[q := Without(qs[q], t)]
  }

  function PutHead(qs: Queues, q: int, t: int): Queues
    requires q in qs
  {
    qs[q := [t] + qs[q]]
  }

  function PutTail(qs: Queues, q: int, t: int): Queues
    requires q in qs
  {
    qs[q := qs[q] + [t]]
  }

  function Rotate(qs: Queues, q: int): Queues
    requires q in qs && qs[q] != []
  {
    qs[q := qs[q][1..] + [qs[q][0]]]
  }

  lemma AtUpdate(qs: Queues, q: int, s: seq<int>, p: int, t: int)
    ensures At(qs[q := s], p, t) <==> if p == q then t in s else At(qs, p, t)
  {
  }

  /** One queue changes; its threads are in no other. */
  lemma UpdateKeeps(qs: Queues, q: int, s: seq<int>)
    requires Partition(qs) && Distinct(s) && forall p, t | t in s && At(qs, p, t) :: p == q
    ensures Partition(qs[q := s])
    ensures forall p, t :: At(qs[q := s], p, t) <==> if p == q then t in s else At(qs, p, t)
  {
    var qs' := qs[q := s];
    forall p, t ensures At(qs', p, t) <==> if p == q then t in s else At(qs, p, t) {
      AtUpdate(qs, q, s, p, t);
    }
    forall p, r, t | At(qs', p, t) && At(qs', r, t) ensures p == r {
    }
  }

  lemma TakeKeeps(qs: Queues, q: int, t: int)
    requires Partition(qs) && At(qs, q, t)
    ensures Partition(Take(qs, q, t)) && Take(qs, q, t).Keys == qs.Keys && !Queued(Take(qs, q, t), t)
    ensures forall p, x :: At(Take(qs, q, t), p, x) <==> At(qs, p, x) && x != t
  {
    hide Without, Distinct;
    DistinctWithout(qs[q], t);
    assert forall p, x | x in qs[q] && At(qs, p, x) :: p == q by {
      assert forall x | x in qs[q] :: At(qs, q, x);
    }
    UpdateKeeps(qs, q, Without(qs[q], t));
    assert t !in Without(qs[q], t);
    assert forall p, x :: At(Take(qs, q, t), p, x) <==> At(qs, p, x) && x != t;
  }

  lemma PutKeeps(qs: Queues, q: int, t: int, s: seq<int>)
    requires Partition(qs) && q in qs && !Queued(qs, t) && (s == [t] + qs[q] || s == qs[q] + [t])
    ensures Partition(qs[q := s]) && qs[q := s].Keys == qs.Keys
    ensures forall p, x :: At(qs[q := s], p, x) <==> At(qs, p, x) || (p == q && x == t)
  {
    assert !At(qs, q, t);
    assert forall p, x | x in s && At(qs, p, x) :: p == q by {
      assert forall x | x in s :: x == t || At(qs, q, x);
    }
    UpdateKeeps(qs, q, s);
  }

  lemma TakeHead(s: seq<int>)
    requires s != []
    ensures Without(s, s[0]) == s[1..]
  {
  }

  /** Rotating a queue keeps every thread where it is. */
  lemma RotateKeeps(qs: Queues, q: int)
    requires Partition(qs) && q in qs && qs[q] != []
    ensures Partition(Rotate(qs, q)) && Rotate(qs, q).Keys == qs.Keys
    ensures forall p, x :: At(Rotate(qs, q), p, x) <==> At(qs, p, x)
  {
    var t := qs[q][0];
    TakeHead(qs[q]);
    TakeKeeps(qs, q, t);
    PutKeeps(Take(qs, q, t), q, t, qs[q][1..] + [t]);
    assert Take(qs, q, t)[q := qs[q][1..] + [t]] == Rotate(qs, q);
  }

  /** A thread taken from one queue and put at an end of another has moved, and nothing else has. */
  lemma MoveKeeps(qs: Queues, p: int, t: int, q: int, s: seq<int>)
    requires Partition(qs) && At(qs, p, t) && q in qs
    requires s == [t] + Take(qs, p, t)[q] || s == Take(qs, p, t)[q] + [t]
    ensures var qs' := Take(qs, p, t)[q := s]; Partition(qs') && qs'.Keys == qs.Keys && Moves(qs, qs', t, q)
  {
    hide Take, Partition;
    TakeKeeps(qs, p, t);
    PutKeeps(Take(qs, p, t), q, t, s);
  }
}
