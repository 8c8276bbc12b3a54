/** include/klist0.h: the intrusive rings under every queue of the kernel. */
module KList0 {
  import opened Ring

  /** Outside the nodes of r the two link maps agree. */
  ghost predicate SameOutside<A(!new)>(m: map<A, A>, m': map<A, A>, r: seq<A>) {
    forall x :: x !in r ==> (x in m <==> x in m') && (x in m ==> m'[x] == m[x])
  }

  /** A ring with no node in r is not touched by changes to r. */
  lemma RingOutside<A(!new)>(next: map<A, A>, prev: map<A, A>, next': map<A, A>, prev': map<A, A>, r: seq<A>, s: seq<A>)
    requires IsRing(next, prev, s) && SameOutside(next, next', r) && SameOutside(prev, prev', r)
    requires forall x | x in s :: x !in r
    ensures IsRing(next', prev', s)
  {
    hide IsRing;
    assert SameOn(next, next', s) && SameOn(prev, prev', s);
    RingFrame(next, prev, next', prev', s);
  }

  /** A node put in front of position k; in front of the head means at the tail. */
  function InsertBefore<A>(r: seq<A>, k: nat, node: A): seq<A>
    requires k < |r|
  {
    InsertAfter(r, if k == 0 then |r| - 1 else k - 1, node)
  }

  /** All list nodes of a memory, with their links. */
  class Links<A(==, !new)> {
    var next: map<A, A>
    var prev: map<A, A>

    constructor ()
      ensures next == map[] && prev == map[]
    {
      next, prev := map[], map[];
    }

    /** KLIST0_INIT: an empty list is a node linked to itself. */
    method Init(node: A)
      modifies this
      ensures IsRing(next, prev, [node])
      ensures SameOutside(old(next), next, [node]) && SameOutside(old(prev), prev, [node])
    {
      next := next[node := node];
      prev := prev[node := node];
    }

    /** klist0_empty, of the ring r that `list` is a node of. */
    method Empty(list: A, ghost r: seq<A>) returns (b: bool)
      requires IsRing(next, prev, r) && list in r
      ensures b <==> r == [list]
    {
      ghost var k: nat :| k < |r| && r[k] == list;
      RingLinks(next, prev, r, k);
      b := next[list] == list;
    }

    method Prepend(node: A, list: A, ghost r: seq<A>, ghost k: nat)
      requires IsRing(next, prev, r) && k < |r| && r[k] == list && node !in r
      modifies this
      ensures IsRing(next, prev, InsertBefore(r, k, node))
      ensures SameOutside(old(next), next, r + [node]) && SameOutside(old(prev), prev, r + [node])
    {
      ghost var n, p, j := next, prev, if k == 0 then |r| - 1 else k - 1;
      RingLinks(next, prev, r, k);
      RingLinks(next, prev, r, j);
      next := next[node := list];
      prev := prev[node := prev[list]];
      next := next[prev[list] := node];
      prev := prev[list := node];
      RingInsert(n, p, r, j, node, next, prev);
    }

    method Append(node: A, list: A, ghost r: seq<A>, ghost k: nat)
      requires IsRing(next, prev, r) && k < |r| && r[k] == list && node !in r
      modifies this
      ensures IsRing(next, prev, InsertAfter(r, k, node))
      ensures SameOutside(old(next), next, r + [node]) && SameOutside(old(prev), prev, r + [node])
    {
      ghost var n, p := next, prev;
      RingLinks(next, prev, r, k);
      next := next[node := next[list]];
      prev := prev[node := list];
      prev := prev[next[list] := node];
      next := next[list := node];
      RingInsert(n, p, r, k, node, next, prev);
    }

    /** klist0_unlink of a member, which ends up alone in a ring of its own. */
    method Unlink(node: A, ghost r: seq<A>, ghost k: nat)
      requires IsRing(next, prev, r) && 0 < k < |r| && r[k] == node
      modifies this
      ensures IsRing(next, prev, RemoveAt(r, k)) && IsRing(next, prev, [node])
      ensures SameOutside(old(next), next, r) && SameOutside(old(prev), prev, r)
    {
      ghost var n, p := next, prev;
      RingLinks(next, prev, r, k);
      next := next[prev[node] := next[node]];
      prev := prev[next[node] := prev[node]];
      next := next[node := node];
      prev := prev[node := node];
      RingRemove(n, p, r, k, next, prev);
    }
  }
}
