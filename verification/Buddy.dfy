/** The buddy system as a state machine over sets of piles.

    A pile is 2^order contiguous pages whose first index is 2^order aligned.  A state splits the
    managed pages [lo, hi) into free and used piles.  `Next` is one allocator call; everything
    proved about `Next` here carries over to the in-place allocator of module PageAlloc, whose
    methods are proved to take exactly such steps. */
module Buddy {
  import opened Powers

  const MAX_ORDER: nat := 11

  datatype Pile = Pile(idx: int, order: nat) {
    ghost function End(): int { idx + Pow2(order) }
    ghost predicate Has(x: int) { idx <= x < End() }
    ghost predicate Aligned() { idx % Pow2(order) == 0 && order < MAX_ORDER }
    ghost predicate Within(b: Pile) { b.idx <= idx && End() <= b.End() }
  }

  ghost predicate Apart(a: Pile, b: Pile) { a.End() <= b.idx || b.End() <= a.idx }

  /** Some pile of F contains page x. */
  ghost predicate Covered(F: set<Pile>, x: int) { exists b :: b in F && b.Has(x) }

  ghost predicate WellFormed(F: set<Pile>) {
    && (forall b :: b in F ==> b.Aligned())
    && (forall a, b :: a in F && b in F && a != b ==> Apart(a, b))
  }

  /** The other half of the pile of the next order that contains b. */
  ghost function BuddyOf(b: Pile): Pile {
    if b.idx % Pow2(b.order + 1) == 0 then Pile(b.idx + Pow2(b.order), b.order)
    else Pile(b.idx - Pow2(b.order), b.order)
  }

  ghost function Parent(b: Pile): Pile {
    if b.idx % Pow2(b.order + 1) == 0 then Pile(b.idx, b.order + 1)
    else Pile(b.idx - Pow2(b.order), b.order + 1)
  }

  ghost function LowerHalf(b: Pile): Pile
    requires b.order > 0
  {
    Pile(b.idx, b.order - 1)
  }

  ghost function UpperHalf(b: Pile): Pile
    requires b.order > 0
  {
    Pile(b.idx + Pow2(b.order - 1), b.order - 1)
  }

  /** No two free buddies that could still be joined. */
  ghost predicate Coalesced(F: set<Pile>) {
    forall b :: b in F && b.order < MAX_ORDER - 1 ==> BuddyOf(b) !in F
  }

  // ---- states and steps

  datatype State = State(lo: int, hi: int, free: set<Pile>, used: set<Pile>)

  ghost predicate Inv(s: State) {
    && s.free !! s.used
    && WellFormed(s.free + s.used)
    && (forall b :: b in s.free + s.used ==> s.lo <= b.idx && b.End() <= s.hi)
    && (forall x :: s.lo <= x < s.hi ==> Covered(s.free + s.used, x))
    && Coalesced(s.free)
  }

  /** Cut p down to `order`: at every cut the lower half becomes free, the upper half goes on. */
  ghost function Split(F: set<Pile>, p: Pile, order: nat): set<Pile>
    requires order <= p.order
    decreases p.order
  {
    if p.order == order then F else Split(F + {LowerHalf(p)}, UpperHalf(p), order)
  }

  /** The piece of p that remains after cutting down to `order`: its last 2^order pages. */
  ghost function Kept(p: Pile, order: nat): Pile
    requires order <= p.order
  {
    Pile(p.End() - Pow2(order), order)
  }

  /** Free b, joining it with its buddy as long as that one is free too. */
  ghost function Merge(F: set<Pile>, b: Pile): set<Pile>
    decreases MAX_ORDER - b.order
  {
    if b.order < MAX_ORDER - 1 && BuddyOf(b) in F then Merge(F - {BuddyOf(b)}, Parent(b)) else F + {b}
  }

  lemma MergeDone(F: set<Pile>, b: Pile)
    requires b.order < MAX_ORDER - 1 ==> BuddyOf(b) !in F
    ensures Merge(F, b) == F + {b}
  {
  }

  lemma SplitStep(F: set<Pile>, p: Pile, order: nat)
    requires order < p.order
    ensures Split(F, p, order) == Split(F + {LowerHalf(p)}, UpperHalf(p), order)
    ensures Kept(UpperHalf(p), order) == Kept(p, order)
  {
    Pow2Half(p.order);
  }

  lemma SplitDone(F: set<Pile>, p: Pile)
    ensures Split(F, p, p.order) == F && Kept(p, p.order) == p
  {
  }

  /** p is a free pile of the smallest order that is large enough. */
  ghost predicate BestFit(F: set<Pile>, order: nat, p: Pile) {
    p in F && order <= p.order && forall b :: b in F && order <= b.order ==> p.order <= b.order
  }

  datatype Op = Alloc(order: nat, from: Pile) | Refuse(order: nat) | Free(pile: Pile)

  ghost predicate Next(s: State, op: Op, s': State) {
    match op
    case Alloc(order, p) =>
      && BestFit(s.free, order, p)
      && s' == s.(free := Split(s.free - {p}, p, order), used := s.used + {Kept(p, order)})
    case Refuse(order) =>
      && (forall b :: b in s.free ==> b.order < order)
      && s' == s
    case Free(b) =>
      && b in s.used
      && s' == s.(free := Merge(s.free, b), used := s.used - {b})
  }

  /** A run: states[0] is the start, ops[i] leads from states[i] to states[i + 1]. */
  ghost predicate Run(states: seq<State>, ops: seq<Op>) {
    && |states| == |ops| + 1
    && forall i :: 0 <= i < |ops| ==> Next(states[i], ops[i], states[i + 1])
  }

  // ---- geometry of dyadic blocks

  lemma Halves(b: Pile)
    requires b.order > 0 && b.Aligned()
    ensures LowerHalf(b).Aligned() && UpperHalf(b).Aligned()
    ensures UpperHalf(b).End() == b.End() && LowerHalf(b).End() == UpperHalf(b).idx
    ensures BuddyOf(LowerHalf(b)) == UpperHalf(b)
    ensures BuddyOf(UpperHalf(b)) == LowerHalf(b)
  {
    hide Pow2;
    Pow2Half(b.order);
    AlignDown(b.idx, b.order - 1, b.order);
    ShiftAligned(b.idx, Pow2(b.order - 1));
    NotMultiple(b.idx, Pow2(b.order), Pow2(b.order - 1));
  }

  /** A pile and its buddy are the two halves of their parent. */
  lemma Buddies(b: Pile)
    requires b.Aligned() && b.order < MAX_ORDER - 1
    ensures Parent(b).Aligned()
    ensures {b, BuddyOf(b)} == {LowerHalf(Parent(b)), UpperHalf(Parent(b))}
    ensures b != BuddyOf(b) && BuddyOf(BuddyOf(b)) == b
  {
    OddMultiple(b.idx, Pow2(b.order));
    Halves(Parent(b));
  }

  /** Two aligned piles are nested or apart. */
  lemma NestedOrApart(a: Pile, b: Pile)
    requires a.Aligned() && b.Aligned() && a.order <= b.order
    ensures a.Within(b) || Apart(a, b)
  {
    AlignDown(b.idx, a.order, b.order);
    Pow2Monotone(a.order, b.order);
    var p := Pow2(a.order);
    assert b.End() % p == 0 by {
      ShiftAligned(b.idx, Pow2(b.order));
      AlignDown(b.End(), a.order, b.order);
    }
    if a.idx < b.idx { MultipleGap(a.idx, b.idx, p); }
    if a.idx < b.End() { MultipleGap(a.idx, b.End(), p); }
  }

  // ---- the four moves every step is made of

  /** A free pile may be taken in hand (counted as used). */
  lemma TakeKeepsInv(s: State, p: Pile)
    requires Inv(s) && p in s.free
    ensures Inv(s.(free := s.free - {p}, used := s.used + {p})) && p !in s.used
  {
    assert s.free - {p} + (s.used + {p}) == s.free + s.used;
  }

  /** A pile in hand may be put back, provided its buddy is not free. */
  lemma PutKeepsInv(s: State, b: Pile)
    requires Inv(s) && b in s.used
    requires b.order < MAX_ORDER - 1 ==> BuddyOf(b) !in s.free
    ensures Inv(s.(free := s.free + {b}, used := s.used - {b}))
  {
    assert s.free + {b} + (s.used - {b}) == s.free + s.used;
    assert b.Aligned();
    forall c | c in s.free + {b} && c.order < MAX_ORDER - 1
      ensures BuddyOf(c) !in s.free + {b}
    {
      assert c.Aligned();
      Buddies(c);
    }
  }

  /** A pile and its two halves cover the same pages, whatever stands beside them. */
  lemma HalvesCover(R: set<Pile>, p: Pile, x: int)
    requires p.Aligned() && p.order > 0
    ensures Covered(R + {p}, x) <==> Covered(R + {LowerHalf(p), UpperHalf(p)}, x)
  {
    var l, u := LowerHalf(p), UpperHalf(p);
    Halves(p);
    if Covered(R + {p}, x) {
      var b :| b in R + {p} && b.Has(x);
      var c := if b != p then b else if l.Has(x) then l else u;
      assert c in R + {l, u} && c.Has(x);
    }
    if Covered(R + {l, u}, x) {
      var b :| b in R + {l, u} && b.Has(x);
      var c := if b == l || b == u then p else b;
      assert c in R + {p} && c.Has(x);
    }
  }

  lemma HalvesApart(p: Pile, c: Pile)
    requires p.Aligned() && p.order > 0
    ensures Apart(c, p) <==> Apart(c, LowerHalf(p)) && Apart(c, UpperHalf(p))
    ensures Apart(LowerHalf(p), UpperHalf(p))
  {
    hide Pow2;
    Halves(p);
    Pow2Half(p.order);
  }

  lemma ApartSwap(a: Pile, b: Pile)
    ensures Apart(a, b) <==> Apart(b, a)
  {
  }

  /** Well-formedness beside a given set: of one pile, and of two. */
  lemma WellFormedWith(R: set<Pile>, p: Pile)
    ensures WellFormed(R + {p}) <==> WellFormed(R) && p.Aligned() && forall c :: c in R && c != p ==> Apart(c, p)
  {
    hide Apart, Pow2;
    var S := R + {p};
    if WellFormed(R) && p.Aligned() && (forall c :: c in R && c != p ==> Apart(c, p)) {
      forall a, b | a in S && b in S && a != b ensures Apart(a, b) {
        ApartSwap(a, b);
      }
    }
    if WellFormed(S) {
      assert p in S && forall c :: c in R ==> c in S;
    }
  }

  /** ... and keep the same distance from the piles beside them. */
  lemma HalvesWellFormed(R: set<Pile>, p: Pile)
    requires p.Aligned() && p.order > 0
    requires p !in R && LowerHalf(p) !in R && UpperHalf(p) !in R
    ensures WellFormed(R + {p}) <==> WellFormed(R + {LowerHalf(p), UpperHalf(p)})
  {
    hide Apart, Pow2, WellFormed;
    var l, u := LowerHalf(p), UpperHalf(p);
    Halves(p);
    forall c ensures Apart(c, p) <==> Apart(c, l) && Apart(c, u) {
      HalvesApart(p, c);
    }
    HalvesApart(p, p);
    assert R + {l, u} == R + {l} + {u};
    WellFormedWith(R, p);
    WellFormedWith(R, l);
    WellFormedWith(R + {l}, u);
  }

  /** A pile in hand may be halved: lower half free, upper half in hand. */
  lemma HalveKeepsInv(s: State, p: Pile)
    requires Inv(s) && p in s.used && p.order > 0
    ensures LowerHalf(p) !in s.free + s.used && UpperHalf(p) !in s.free + s.used
    ensures Inv(s.(free := s.free + {LowerHalf(p)}, used := s.used - {p} + {UpperHalf(p)}))
  {
    var l, u := LowerHalf(p), UpperHalf(p);
    var R := s.free + s.used - {p};
    var s' := s.(free := s.free + {l}, used := s.used - {p} + {u});
    Halves(p);
    assert R + {p} == s.free + s.used && R + {l, u} == s'.free + s'.used;
    assert l !in R && u !in R by {
      assert l in R ==> Apart(l, p);
      assert u in R ==> Apart(u, p);
    }
    HalvesWellFormed(R, p);
    forall x | s.lo <= x < s.hi
      ensures Covered(s'.free + s'.used, x)
    {
      HalvesCover(R, p, x);
    }
    forall c | c in s'.free && c.order < MAX_ORDER - 1
      ensures BuddyOf(c) !in s'.free
    {
      Buddies(c);
    }
  }

  /** A pile in hand may be joined with its free buddy. */
  lemma JoinKeepsInv(s: State, b: Pile)
    requires Inv(s) && b in s.used && b.order < MAX_ORDER - 1 && BuddyOf(b) in s.free
    ensures Parent(b) !in s.free + s.used
    ensures Inv(s.(free := s.free - {BuddyOf(b)}, used := s.used - {b} + {Parent(b)}))
  {
    var p, c := Parent(b), BuddyOf(b);
    var R := s.free + s.used - {b, c};
    var s' := s.(free := s.free - {c}, used := s.used - {b} + {p});
    assert b.Aligned();
    Buddies(b);
    Halves(p);
    var l, u := LowerHalf(p), UpperHalf(p);
    assert R + {l, u} == s.free + s.used;
    assert R + {p} == s'.free + s'.used;
    assert p !in s.free + s.used by {
      assert p in s.free + s.used ==> Apart(p, l);
    }
    HalvesWellFormed(R, p);
    forall x | s.lo <= x < s.hi
      ensures Covered(s'.free + s'.used, x)
    {
      HalvesCover(R, p, x);
    }
  }

  // ---- every step keeps the invariant

  lemma {:induction false} SplitKeepsInv(s: State, p: Pile, order: nat)
    requires Inv(s) && p in s.used && order <= p.order
    ensures Inv(s.(free := Split(s.free, p, order), used := s.used - {p} + {Kept(p, order)}))
    decreases p.order
  {
    hide Inv;
    if p.order == order {
      assert s.used - {p} + {Kept(p, order)} == s.used;
    } else {
      var s' := s.(free := s.free + {LowerHalf(p)}, used := s.used - {p} + {UpperHalf(p)});
      HalveKeepsInv(s, p);
      SplitKeepsInv(s', UpperHalf(p), order);
      assert s'.used - {UpperHalf(p)} == s.used - {p};
    }
  }

  lemma {:induction false} MergeKeepsInv(s: State, b: Pile)
    requires Inv(s) && b in s.used
    ensures Inv(s.(free := Merge(s.free, b), used := s.used - {b}))
    decreases MAX_ORDER - b.order
  {
    hide Inv;
    if b.order < MAX_ORDER - 1 && BuddyOf(b) in s.free {
      var s' := s.(free := s.free - {BuddyOf(b)}, used := s.used - {b} + {Parent(b)});
      JoinKeepsInv(s, b);
      MergeKeepsInv(s', Parent(b));
      assert s'.used - {Parent(b)} == s.used - {b};
    } else {
      PutKeepsInv(s, b);
    }
  }

  lemma NextKeepsInv(s: State, op: Op, s': State)
    requires Inv(s) && Next(s, op, s')
    ensures Inv(s') && s'.lo == s.lo && s'.hi == s.hi
  {
    hide Inv;
    match op
    case Alloc(order, p) =>
      var t := s.(free := s.free - {p}, used := s.used + {p});
      TakeKeepsInv(s, p);
      SplitKeepsInv(t, p, order);
      assert t.used - {p} == s.used;
    case Refuse(_) =>
    case Free(b) =>
      MergeKeepsInv(s, b);
  }

  /** Partition and full coalescing hold in every state of every run. */
  lemma {:induction false} RunKeepsInv(states: seq<State>, ops: seq<Op>)
    requires Run(states, ops) && Inv(states[0])
    ensures forall i :: 0 <= i < |states| ==>
      Inv(states[i]) && states[i].lo == states[0].lo && states[i].hi == states[0].hi
  {
    hide Inv;
    hide Next;
    if |ops| > 0 {
      var n := |ops| - 1;
      assert Run(states[..n + 1], ops[..n]);
      RunKeepsInv(states[..n + 1], ops[..n]);
      assert states[n] == states[..n + 1][n];
      NextKeepsInv(states[n], ops[n], states[n + 1]);
      forall i | 0 <= i < |states|
        ensures Inv(states[i]) && states[i].lo == states[0].lo && states[i].hi == states[0].hi
      {
        assert i <= n ==> states[i] == states[..n + 1][i];
      }
    }
  }

  // ---- completeness and canonical form

  /** A free pile that holds half of b and is as large as b holds all of b. */
  lemma HalfMeansWhole(b: Pile, half: Pile, c: Pile)
    requires b.Aligned() && b.order > 0 && half in {LowerHalf(b), UpperHalf(b)}
    requires c.Aligned() && half.Within(c) && b.order <= c.order
    ensures b.Within(c)
  {
    hide Pow2;
    Pow2Half(b.order);
    NestedOrApart(b, c);
  }

  /** Two small free piles that hold the two halves of b are those halves: buddies left unjoined. */
  lemma HalvesAreBuddies(b: Pile, c: Pile, d: Pile)
    requires b.Aligned() && b.order > 0 && c.order == d.order == b.order - 1
    requires LowerHalf(b).Within(c) && UpperHalf(b).Within(d)
    ensures d == BuddyOf(c)
  {
    hide Pow2, BuddyOf;
    SameOrderWithin(LowerHalf(b), c);
    SameOrderWithin(UpperHalf(b), d);
    Halves(b);
  }

  lemma SameOrderWithin(a: Pile, b: Pile)
    requires a.order == b.order && a.Within(b)
    ensures a == b
  {
    hide Pow2;
  }

  lemma HalvesCovered(F: set<Pile>, b: Pile)
    requires b.order > 0 && b.Aligned() && forall x :: b.Has(x) ==> Covered(F, x)
    ensures LowerHalf(b).Aligned() && UpperHalf(b).Aligned()
    ensures forall x :: LowerHalf(b).Has(x) ==> Covered(F, x)
    ensures forall x :: UpperHalf(b).Has(x) ==> Covered(F, x)
  {
    hide Pow2, Covered;
    Halves(b);
    assert forall x :: LowerHalf(b).Has(x) || UpperHalf(b).Has(x) ==> b.Has(x);
  }

  /** The heart of the matter: an aligned block whose pages are all free lies inside one free pile.
      Otherwise both halves would be free piles of their own, i.e. buddies left unjoined. */
  lemma {:induction false} FreeBlockInOnePile(F: set<Pile>, b: Pile) returns (c: Pile)
    requires WellFormed(F) && Coalesced(F)
    requires b.Aligned() && forall x :: b.Has(x) ==> Covered(F, x)
    ensures c in F && b.Within(c) && b.order <= c.order
    decreases b.order
  {
    hide BuddyOf, LowerHalf, UpperHalf, Apart;
    if b.order == 0 {
      assert b.Has(b.idx);
      c :| c in F && c.Has(b.idx);
    } else {
      HalvesCovered(F, b);
      HalfOrders(b);
      c := FreeBlockInOnePile(F, LowerHalf(b));
      var d := FreeBlockInOnePile(F, UpperHalf(b));
      if c.order >= b.order {
        HalfMeansWhole(b, LowerHalf(b), c);
      } else if d.order >= b.order {
        HalfMeansWhole(b, UpperHalf(b), d);
        c := d;
      } else {
        HalvesAreBuddies(b, c, d);
        assert false;
      }
    }
  }

  lemma HalfOrders(b: Pile)
    requires b.order > 0
    ensures LowerHalf(b).order == b.order - 1 && UpperHalf(b).order == b.order - 1
  {
  }

  /** A request is refused if and only if the zone has no aligned run of 2^order free pages. */
  lemma RefusalMeansNoFreeRun(s: State, order: nat)
    requires Inv(s) && order < MAX_ORDER
    ensures (forall c :: c in s.free ==> c.order < order)
       <==> !exists i :: Pile(i, order).Aligned() && forall x :: Pile(i, order).Has(x) ==> Covered(s.free, x)
  {
    assert WellFormed(s.free) by { assert forall c :: c in s.free ==> c in s.free + s.used; }
    if i :| Pile(i, order).Aligned() && forall x :: Pile(i, order).Has(x) ==> Covered(s.free, x) {
      var c := FreeBlockInOnePile(s.free, Pile(i, order));
    }
    if c :| c in s.free && order <= c.order {
      AlignDown(c.idx, order, c.order);
      Pow2Monotone(order, c.order);
      var b := Pile(c.idx, order);
      assert forall x :: b.Has(x) ==> c.Has(x);
      assert b.Aligned();
    }
  }

  /** Two coalesced families that cover the same pages are the same family. */
  lemma DecompositionUnique(F: set<Pile>, G: set<Pile>)
    requires WellFormed(F) && Coalesced(F) && WellFormed(G) && Coalesced(G)
    requires forall x :: Covered(F, x) <==> Covered(G, x)
    ensures F == G
  {
    DecompositionIncluded(F, G);
    DecompositionIncluded(G, F);
  }

  lemma DecompositionIncluded(F: set<Pile>, G: set<Pile>)
    requires WellFormed(F) && Coalesced(F) && WellFormed(G) && Coalesced(G)
    requires forall x :: Covered(F, x) <==> Covered(G, x)
    ensures F <= G
  {
    forall b | b in F
      ensures b in G
    {
      var c := FreeBlockInOnePile(G, b);
      var d := FreeBlockInOnePile(F, c);
      assert b.Within(d);
      assert b == d;
    }
  }

  /** The free pages are exactly the managed pages outside the used piles. */
  lemma FreeIsComplement(s: State, x: int)
    requires Inv(s)
    ensures Covered(s.free, x) <==> s.lo <= x < s.hi && !Covered(s.used, x)
  {
    if b :| b in s.free && b.Has(x) {
      assert b in s.free + s.used;
      assert forall c :: c in s.used ==> c in s.free + s.used && Apart(b, c);
    }
    if s.lo <= x < s.hi && !Covered(s.used, x) {
      assert Covered(s.free + s.used, x);
      var b :| b in s.free + s.used && b.Has(x);
      assert b in s.free;
    }
  }

  /** The used pages alone determine every free list: the order of past calls leaves no trace. */
  lemma HistoryIndependence(s: State, t: State)
    requires Inv(s) && Inv(t) && s.lo == t.lo && s.hi == t.hi
    requires forall x :: Covered(s.used, x) <==> Covered(t.used, x)
    ensures s.free == t.free
  {
    forall x
      ensures Covered(s.free, x) <==> Covered(t.free, x)
    {
      FreeIsComplement(s, x);
      FreeIsComplement(t, x);
    }
    assert WellFormed(s.free) by { assert forall c :: c in s.free ==> c in s.free + s.used; }
    assert WellFormed(t.free) by { assert forall c :: c in t.free ==> c in t.free + t.used; }
    DecompositionUnique(s.free, t.free);
  }

  /** Whenever a run comes back to the used piles it had before, it is back in that very state.
      In particular, once everything is freed, every level is as it was after initialization. */
  lemma RunReturnsToCanonicalForm(states: seq<State>, ops: seq<Op>, i: nat, j: nat)
    requires Run(states, ops) && Inv(states[0])
    requires i < |states| && j < |states| && states[i].used == states[j].used
    ensures states[i] == states[j]
  {
    RunKeepsInv(states, ops);
    HistoryIndependence(states[i], states[j]);
  }

  /** An allocation hands out an aligned pile of the requested order made of free pages only,
      and those pages are all that leave the free set. */
  lemma AllocTakesFreePages(s: State, order: nat, p: Pile, s': State)
    requires Inv(s) && Next(s, Alloc(order, p), s')
    ensures Kept(p, order).Aligned() && Kept(p, order).Within(p) && Kept(p, order) !in s.used
    ensures Kept(p, order).order == order && Kept(p, order).End() == p.End()
    ensures forall x :: Covered(s'.free, x) <==> Covered(s.free, x) && !Kept(p, order).Has(x)
  {
    var q := Kept(p, order);
    NextKeepsInv(s, Alloc(order, p), s');
    Pow2Monotone(order, p.order);
    assert q in s'.free + s'.used;
    assert q !in s.used by {
      assert q in s.used ==> q in s.free + s.used && p in s.free + s.used && Apart(q, p);
    }
    forall x
      ensures Covered(s'.free, x) <==> Covered(s.free, x) && !q.Has(x)
    {
      FreeIsComplement(s, x);
      FreeIsComplement(s', x);
      assert Covered(s'.used, x) <==> Covered(s.used, x) || q.Has(x);
    }
  }

  /** Freeing what was just allocated undoes the allocation, split lists included. */
  lemma AllocFreeRoundTrip(s: State, order: nat, p: Pile, s': State, s'': State)
    requires Inv(s) && Next(s, Alloc(order, p), s') && Next(s', Free(Kept(p, order)), s'')
    ensures s'' == s
  {
    AllocTakesFreePages(s, order, p, s');
    NextKeepsInv(s, Alloc(order, p), s');
    NextKeepsInv(s', Free(Kept(p, order)), s'');
    assert s''.used == s.used;
    HistoryIndependence(s, s'');
  }
}
