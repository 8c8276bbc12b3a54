/** Doubly linked rings with a head node, as both include/klist0.h and usr/klibc/malloc.c use them.

    The link fields of all nodes form two maps; a ring is the sequence of its nodes, head first. */
module Ring {

  ghost predicate Distinct<A>(r: seq<A>) {
    forall i, j :: 0 <= i < j < |r| ==> r[i] != r[j]
  }

  /** next and prev lead round the nodes of r in order and back. */
  ghost predicate IsRing<A>(next: map<A, A>, prev: map<A, A>, r: seq<A>) {
    && |r| >= 1
    && Distinct(r)
    && (forall i :: 0 <= i < |r| ==> r[i] in next && r[i] in prev)
    && (forall i :: 0 <= i < |r| - 1 ==> next[r[i]] == r[i + 1])
    && (forall i :: 0 < i < |r| ==> prev[r[i]] == r[i - 1])
    && next[r[|r| - 1]] == r[0]
    && prev[r[0]] == r[|r| - 1]
  }

  /** The links of the nodes in r are the same in both maps. */
  ghost predicate SameOn<A>(m: map<A, A>, m': map<A, A>, r: seq<A>) {
    forall i :: 0 <= i < |r| ==> (r[i] in m <==> r[i] in m') && (r[i] in m ==> m'[r[i]] == m[r[i]])
  }

  lemma RingFrame<A>(next: map<A, A>, prev: map<A, A>, next': map<A, A>, prev': map<A, A>, r: seq<A>)
    requires IsRing(next, prev, r) && SameOn(next, next', r) && SameOn(prev, prev', r)
    ensures IsRing(next', prev', r)
  {
  }

  /** The node after position k of the ring. */
  function After<A>(r: seq<A>, k: nat): A
    requires k < |r|
  {
    if k + 1 < |r| then r[k + 1] else r[0]
  }

  function InsertAfter<A>(r: seq<A>, k: nat, node: A): seq<A>
    requires k < |r|
  {
    r[..k + 1] + [node] + r[k + 1..]
  }

  function RemoveAt<A>(r: seq<A>, k: nat): seq<A>
    requires k < |r|
  {
    r[..k] + r[k + 1..]
  }

  /** The links at position i of a ring. */
  ghost predicate NextAt<A>(next: map<A, A>, q: seq<A>, i: nat)
    requires i < |q|
  {
    q[i] in next && next[q[i]] == if i < |q| - 1 then q[i + 1] else q[0]
  }

  ghost predicate PrevAt<A>(prev: map<A, A>, q: seq<A>, i: nat)
    requires i < |q|
  {
    q[i] in prev && prev[q[i]] == if i > 0 then q[i - 1] else q[|q| - 1]
  }

  lemma RingFromLinks<A>(next: map<A, A>, prev: map<A, A>, q: seq<A>)
    requires q != [] && Distinct(q)
    requires forall i: nat | i < |q| :: NextAt(next, q, i)
    requires forall i: nat | i < |q| :: PrevAt(prev, q, i)
    ensures IsRing(next, prev, q)
  {
    hide Distinct;
    assert NextAt(next, q, |q| - 1) && PrevAt(prev, q, 0);
    forall i | 0 <= i < |q|
      ensures q[i] in next && q[i] in prev
      ensures (i < |q| - 1 ==> next[q[i]] == q[i + 1]) && (i > 0 ==> prev[q[i]] == q[i - 1])
    {
      assert NextAt(next, q, i) && PrevAt(prev, q, i);
    }
  }

  lemma InsertAfterAt<A>(r: seq<A>, k: nat, node: A, i: nat)
    requires k < |r| && i <= |r|
    ensures |InsertAfter(r, k, node)| == |r| + 1
    ensures InsertAfter(r, k, node)[i] == if i <= k then r[i] else if i == k + 1 then node else r[i - 1]
  {
  }

  lemma InsertDistinct<A>(r: seq<A>, k: nat, node: A)
    requires Distinct(r) && k < |r| && node !in r
    ensures Distinct(InsertAfter(r, k, node))
  {
    hide InsertAfter;
    var q := InsertAfter(r, k, node);
    InsertAfterAt(r, k, node, 0);
    forall i, j | 0 <= i < j < |q| ensures q[i] != q[j] {
      InsertAfterAt(r, k, node, i);
      InsertAfterAt(r, k, node, j);
    }
  }

  /** The next links of a ring with one more node, and the prev links. */
  lemma InsertNext<A>(next: map<A, A>, prev: map<A, A>, r: seq<A>, k: nat, node: A, next': map<A, A>, i: nat)
    requires IsRing(next, prev, r) && k < |r| && node !in r && i <= |r|
    requires r[k] in next' && next'[r[k]] == node && node in next' && next'[node] == After(r, k)
    requires forall x :: x in r && x != r[k] ==> x in next' && next'[x] == next[x]
    ensures var q := InsertAfter(r, k, node);
      |q| == |r| + 1 && NextAt(next', q, i)
  {
    hide InsertAfter;
    InsertAfterAt(r, k, node, i);
    InsertAfterAt(r, k, node, if i < |r| then i + 1 else 0);
    if i != k + 1 {
      var j := if i <= k then i else i - 1;
      assert r[j] in r && (j != k ==> r[j] != r[k]);
    }
  }

  lemma InsertPrev<A>(next: map<A, A>, prev: map<A, A>, r: seq<A>, k: nat, node: A, prev': map<A, A>, i: nat)
    requires IsRing(next, prev, r) && k < |r| && node !in r && i <= |r|
    requires After(r, k) in prev' && prev'[After(r, k)] == node && node in prev' && prev'[node] == r[k]
    requires forall x :: x in r && x != After(r, k) ==> x in prev' && prev'[x] == prev[x]
    ensures var q := InsertAfter(r, k, node);
      |q| == |r| + 1 && PrevAt(prev', q, i)
  {
    hide InsertAfter;
    InsertAfterAt(r, k, node, i);
    InsertAfterAt(r, k, node, if i > 0 then i - 1 else |r|);
    if i != k + 1 {
      var j, n := if i <= k then i else i - 1, if k + 1 < |r| then k + 1 else 0;
      assert r[j] in r && (j != n ==> r[j] != r[n]);
    }
  }

  /** Four link updates put a node behind position k. */
  lemma RingInsert<A>(next: map<A, A>, prev: map<A, A>, r: seq<A>, k: nat, node: A, next': map<A, A>, prev': map<A, A>)
    requires IsRing(next, prev, r) && k < |r| && node !in r
    requires r[k] in next' && next'[r[k]] == node && node in next' && next'[node] == After(r, k)
    requires After(r, k) in prev' && prev'[After(r, k)] == node && node in prev' && prev'[node] == r[k]
    requires forall x :: x in r && x != r[k] ==> x in next' && next'[x] == next[x]
    requires forall x :: x in r && x != After(r, k) ==> x in prev' && prev'[x] == prev[x]
    ensures IsRing(next', prev', InsertAfter(r, k, node))
  {
    hide InsertAfter, Distinct, After, NextAt, PrevAt;
    var q := InsertAfter(r, k, node);
    InsertDistinct(r, k, node);
    InsertAfterAt(r, k, node, 0);
    forall i: nat | i < |q| ensures NextAt(next', q, i) {
      InsertNext(next, prev, r, k, node, next', i);
    }
    forall i: nat | i < |q| ensures PrevAt(prev', q, i) {
      InsertPrev(next, prev, r, k, node, prev', i);
    }
    RingFromLinks(next', prev', q);
  }

  lemma RemoveAtAt<A>(r: seq<A>, k: nat, i: nat)
    requires k < |r| && i < |r| - 1
    ensures |RemoveAt(r, k)| == |r| - 1 && RemoveAt(r, k)[i] == if i < k then r[i] else r[i + 1]
  {
  }

  lemma RemoveDistinct<A>(r: seq<A>, k: nat)
    requires Distinct(r) && k < |r|
    ensures Distinct(RemoveAt(r, k)) && |RemoveAt(r, k)| == |r| - 1
  {
    var q := RemoveAt(r, k);
    forall i, j | 0 <= i < j < |q| ensures q[i] != q[j] {
      RemoveAtAt(r, k, i);
      RemoveAtAt(r, k, j);
    }
  }

  lemma RemoveNext<A>(next: map<A, A>, prev: map<A, A>, r: seq<A>, k: nat, next': map<A, A>, i: nat)
    requires IsRing(next, prev, r) && 0 < k < |r| && i < |r| - 1
    requires r[k - 1] in next' && next'[r[k - 1]] == After(r, k)
    requires forall x :: x in r && x != r[k - 1] && x != r[k] ==> x in next' && next'[x] == next[x]
    ensures var q := RemoveAt(r, k);
      |q| == |r| - 1 && NextAt(next', q, i)
  {
    hide RemoveAt;
    RemoveAtAt(r, k, i);
    RemoveAtAt(r, k, if i < |r| - 2 then i + 1 else 0);
    var j := if i < k then i else i + 1;
    assert r[j] in r && r[j] != r[k] && (j != k - 1 ==> r[j] != r[k - 1]);
  }

  lemma RemovePrev<A>(next: map<A, A>, prev: map<A, A>, r: seq<A>, k: nat, prev': map<A, A>, i: nat)
    requires IsRing(next, prev, r) && 0 < k < |r| && i < |r| - 1
    requires After(r, k) in prev' && prev'[After(r, k)] == r[k - 1]
    requires forall x :: x in r && x != After(r, k) && x != r[k] ==> x in prev' && prev'[x] == prev[x]
    ensures var q := RemoveAt(r, k);
      |q| == |r| - 1 && PrevAt(prev', q, i)
  {
    hide RemoveAt;
    RemoveAtAt(r, k, i);
    RemoveAtAt(r, k, if i > 0 then i - 1 else |r| - 2);
    var j, n := if i < k then i else i + 1, if k + 1 < |r| then k + 1 else 0;
    assert r[j] in r && r[j] != r[k] && (j != n ==> r[j] != r[n]);
  }

  /** Two link updates take the node at position k, not the head, out. */
  lemma RingRemove<A>(next: map<A, A>, prev: map<A, A>, r: seq<A>, k: nat, next': map<A, A>, prev': map<A, A>)
    requires IsRing(next, prev, r) && 0 < k < |r|
    requires r[k - 1] in next' && next'[r[k - 1]] == After(r, k)
    requires After(r, k) in prev' && prev'[After(r, k)] == r[k - 1]
    requires forall x :: x in r && x != r[k - 1] && x != r[k] ==> x in next' && next'[x] == next[x]
    requires forall x :: x in r && x != After(r, k) && x != r[k] ==> x in prev' && prev'[x] == prev[x]
    ensures IsRing(next', prev', RemoveAt(r, k))
  {
    hide RemoveAt, Distinct, After, NextAt, PrevAt;
    var q := RemoveAt(r, k);
    RemoveDistinct(r, k);
    forall i: nat | i < |q| ensures NextAt(next', q, i) {
      RemoveNext(next, prev, r, k, next', i);
    }
    forall i: nat | i < |q| ensures PrevAt(prev', q, i) {
      RemovePrev(next, prev, r, k, prev', i);
    }
    RingFromLinks(next', prev', q);
  }

  /** A new node takes the place of the one at position k, not the head. */
  lemma RingReplace<A>(next: map<A, A>, prev: map<A, A>, r: seq<A>, k: nat, node: A, next': map<A, A>, prev': map<A, A>)
    requires IsRing(next, prev, r) && 0 < k < |r| && node !in r
    requires r[k - 1] in next' && next'[r[k - 1]] == node && node in next' && next'[node] == After(r, k)
    requires After(r, k) in prev' && prev'[After(r, k)] == node && node in prev' && prev'[node] == r[k - 1]
    requires forall x :: x in r && x != r[k - 1] && x != r[k] ==> x in next' && next'[x] == next[x]
    requires forall x :: x in r && x != After(r, k) && x != r[k] ==> x in prev' && prev'[x] == prev[x]
    ensures IsRing(next', prev', r[k := node])
  {
  }

  /** Where the links of a ring lead from a given position. */
  lemma RingLinks<A>(next: map<A, A>, prev: map<A, A>, r: seq<A>, k: nat)
    requires IsRing(next, prev, r) && k < |r|
    ensures r[k] in next && next[r[k]] == After(r, k)
    ensures r[k] in prev && prev[r[k]] == if k == 0 then r[|r| - 1] else r[k - 1]
    ensures k > 0 && k + 1 < |r| ==> After(r, k) != r[k] && r[k - 1] != r[k]
  {
  }

  // ---- members of a sequence without repetition

  function IndexOf(s: seq<int>, t: int): (i: nat)
    requires t in s
    ensures i < |s| && s[i] == t && t !in s[..i]
  {
    if s[0] == t then 0 else 1 + IndexOf(s[1..], t)
  }

  function Without(s: seq<int>, t: int): seq<int>
    requires t in s
  {
    RemoveAt(s, IndexOf(s, t))
  }

  lemma DistinctWithout(s: seq<int>, t: int)
    requires Distinct(s) && t in s
    ensures Distinct(Without(s, t)) && forall x :: x in Without(s, t) <==> x in s && x != t
  {
    var k, w := IndexOf(s, t), Without(s, t);
    forall i | 0 <= i < |w| ensures w[i] == (if i < k then s[i] else s[i + 1]) && w[i] != t {
    }
    forall x | x in s && x != t ensures x in w {
      var i :| 0 <= i < |s| && s[i] == x;
      assert w[if i < k then i else i - 1] == x;
    }
  }

  lemma IndexUnique(s: seq<int>, t: int, i: nat)
    requires i < |s| && s[i] == t && Distinct(s)
    ensures t in s && IndexOf(s, t) == i
  {
    hide IndexOf;
  }

  lemma WithoutAt(s: seq<int>, t: int, i: nat)
    requires i < |s| && s[i] == t && Distinct(s)
    ensures t in s && IndexOf(s, t) == i && Without(s, t) == RemoveAt(s, i)
  {
    hide IndexOf, RemoveAt;
    IndexUnique(s, t, i);
  }
}
