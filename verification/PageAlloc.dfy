/** The page allocator of kernel/page_alloc.c, in place: MAX_ORDER free lists of pile indices and the
    `private.order` field of every page.  Each method is proved to take one step of module Buddy. */
module PageAlloc {
  import opened Powers
  import opened Wrappers
  import opened Buddy
  import Ring

  const PAGE_SIZE: nat := 4096
  const STRUCT_PAGE_SIZE: nat := 32

  /** The alignment of an index, capped at the largest order. */
  method IdxOrder(index: nat) returns (i: nat)
    ensures i < MAX_ORDER
    ensures forall k: nat :: k < MAX_ORDER ==> (index % Pow2(k) == 0 <==> k <= i)
  {
    hide Pow2;
    Pow2Zero();
    i := 0;
    var rest := index;
    while rest % 2 == 0 && i < MAX_ORDER - 1
      invariant i < MAX_ORDER && index == rest * Pow2(i)
    {
      EvenSplit(rest, rest / 2, Pow2(i));
      Pow2Half(i + 1);
      rest := rest / 2;
      i := i + 1;
    }
    IdxOrderMeaning(index, rest, i);
  }

  lemma IdxOrderMeaning(index: nat, rest: nat, i: nat)
    requires index == rest * Pow2(i) && i < MAX_ORDER && (rest % 2 == 1 || i == MAX_ORDER - 1)
    ensures forall k: nat :: k < MAX_ORDER ==> (index % Pow2(k) == 0 <==> k <= i)
  {
    hide Pow2;
    MultipleMod(rest, Pow2(i));
    if rest % 2 == 1 {
      var h := rest / 2;
      OddSplit(rest, h, Pow2(i));
      Pow2Half(i + 1);
      DivModUnique(index, Pow2(i + 1), h, Pow2(i));
    }
    forall k: nat | k < MAX_ORDER
      ensures index % Pow2(k) == 0 <==> k <= i
    {
      if k <= i {
        AlignDown(index, k, i);
      } else if index % Pow2(k) == 0 {
        AlignDown(index, i + 1, k);
      }
    }
  }

  /** Level k lists exactly the piles of order k in F, each once. */
  ghost predicate Lists(levels: seq<seq<int>>, F: set<Pile>) {
    && |levels| == MAX_ORDER
    && (forall k: nat, i :: k < MAX_ORDER ==> (i in levels[k] <==> Pile(i, k) in F))
    && (forall k: nat, a, b :: k < MAX_ORDER && 0 <= a < b < |levels[k]| ==> levels[k][a] != levels[k][b])
  }

  lemma ListsInsert(levels: seq<seq<int>>, F: set<Pile>, p: Pile)
    requires Lists(levels, F) && p !in F && p.order < MAX_ORDER
    ensures Lists(levels[p.order := [p.idx] + levels[p.order]], F + {p})
  {
  }

  ghost predicate Ascending(levels: seq<seq<int>>) {
    forall k, a, b :: 0 <= k < |levels| && 0 <= a < b < |levels[k]| ==> levels[k][a] < levels[k][b]
  }

  lemma AppendAscending(levels: seq<seq<int>>, F: set<Pile>, p: Pile)
    requires Lists(levels, F) && p !in F && p.order < MAX_ORDER
    requires Ascending(levels) && forall b :: b in F ==> b.idx < p.idx
    ensures Lists(levels[p.order := levels[p.order] + [p.idx]], F + {p})
    ensures Ascending(levels[p.order := levels[p.order] + [p.idx]])
  {
    var k := p.order;
    assert forall a :: 0 <= a < |levels[k]| ==> levels[k][a] in levels[k] && Pile(levels[k][a], k) in F;
  }

  lemma ListsUnlink(levels: seq<seq<int>>, F: set<Pile>, k: nat, j: nat)
    requires Lists(levels, F) && k < MAX_ORDER && j < |levels[k]|
    ensures Lists(levels[k := levels[k][..j] + levels[k][j + 1..]], F - {Pile(levels[k][j], k)})
  {
    var l := levels[k][..j] + levels[k][j + 1..];
    assert forall i :: i in l <==> i in levels[k] && i != levels[k][j];
  }

  lemma ListedPiles(s: State, levels: seq<seq<int>>, k: nat)
    requires Inv(s) && Lists(levels, s.free) && k < MAX_ORDER && s.lo >= 0
    ensures |levels| == MAX_ORDER
    ensures forall i :: i in levels[k] ==> i >= 0 && i % Pow2(k) == 0
    ensures forall i :: i in levels[k] <==> Pile(i, k) in s.free
  {
    forall i | i in levels[k]
      ensures i >= 0 && i % Pow2(k) == 0
    {
      assert Pile(i, k) in s.free + s.used;
    }
  }

  /** The opening page of every pile of P records the pile's order. */
  ghost predicate Orders(P: set<Pile>, order: seq<nat>) {
    forall b :: b in P ==> 0 <= b.idx < |order| && order[b.idx] == b.order
  }

  lemma OpeningPagesDiffer(s: State, b: Pile)
    requires Inv(s) && b in s.free + s.used
    ensures forall c :: c in s.free + s.used && c != b ==> c.idx != b.idx
  {
    forall c | c in s.free + s.used && c != b
      ensures c.idx != b.idx
    {
      assert Apart(b, c);
    }
  }

  /** After a join, raising the order at the lower opening page brings the order fields up to date. */
  lemma JoinKeepsOrders(s: State, order: seq<nat>, hand: Pile)
    requires Inv(s) && s.lo >= 0 && s.hi == |order| && hand in s.used && hand.order < MAX_ORDER - 1
    requires BuddyOf(hand) in s.free && Orders(s.free + s.used, order)
    ensures var (buddy, whole) := (BuddyOf(hand), Parent(hand));
      && whole.Aligned() && hand.Within(whole) && whole.order == hand.order + 1
      && whole.idx == (if buddy.idx < hand.idx then buddy.idx else hand.idx)
      && 0 <= whole.idx < |order| && order[whole.idx] == hand.order
      && Orders(s.free - {buddy} + (s.used - {hand} + {whole}) - {whole}, order[whole.idx := hand.order + 1])
  {
    hide Pow2, Coalesced, Covered;
    var buddy, whole := BuddyOf(hand), Parent(hand);
    assert hand in s.free + s.used && buddy in s.free + s.used;
    Buddies(hand);
    Halves(whole);
    OpeningPagesDiffer(s, hand);
    OpeningPagesDiffer(s, buddy);
  }

  lemma PileInZone(s: State, b: Pile)
    requires Inv(s) && b in s.free + s.used
    ensures b.Aligned() && s.lo <= b.idx < s.hi
  {
  }

  /** The lowest non-empty level from `ord` up, MAX_ORDER or more if there is none. */
  ghost function FirstFit(levels: seq<seq<int>>, ord: nat): (i: nat)
    requires |levels| == MAX_ORDER
    ensures ord <= i && (i < MAX_ORDER ==> levels[i] != [])
    decreases MAX_ORDER - ord
  {
    if ord >= MAX_ORDER || levels[ord] != [] then ord else FirstFit(levels, ord + 1)
  }

  lemma {:induction false} FirstFitIsBest(levels: seq<seq<int>>, F: set<Pile>, ord: nat)
    requires Lists(levels, F) && forall b :: b in F ==> b.order < MAX_ORDER
    ensures var i := FirstFit(levels, ord);
      if i < MAX_ORDER then BestFit(F, ord, Pile(levels[i][0], i))
      else forall b :: b in F ==> b.order < ord
    decreases MAX_ORDER - ord
  {
    if ord >= MAX_ORDER {
    } else if levels[ord] != [] {
      assert levels[ord][0] in levels[ord];
    } else {
      FirstFitIsBest(levels, F, ord + 1);
      assert forall b :: b in F && b.order == ord ==> b.idx in levels[ord];
    }
  }

  /** What greedy initialization establishes for each pile it places below `total`. */
  ghost predicate Maximal(b: Pile, total: int) {
    b.order == MAX_ORDER - 1 || b.idx % Pow2(b.order + 1) != 0 || b.idx + Pow2(b.order + 1) > total
  }

  /** Placing maximal piles one after the other keeps the invariant. */
  lemma PlaceKeepsInv(s: State, p: Pile, total: int)
    requires Inv(s) && s.used == {} && p.Aligned() && s.lo <= s.hi == p.idx && p.End() <= total
    requires Maximal(p, total) && forall b :: b in s.free ==> Maximal(b, total)
    ensures p !in s.free
    ensures Inv(s.(hi := p.End(), free := s.free + {p}))
  {
    var s' := s.(hi := p.End(), free := s.free + {p});
    assert s.free + s.used == s.free && s'.free + s'.used == s.free + {p};
    forall x | s.lo <= x < s'.hi
      ensures Covered(s'.free + s'.used, x)
    {
      if x < s.hi {
        assert Covered(s.free + s.used, x);
        var b :| b in s.free && b.Has(x);
        assert b in s'.free + s'.used;
      } else {
        assert p in s'.free + s'.used && p.Has(x);
      }
    }
    MaximalMeansCoalesced(s'.free, total);
  }

  /** Buddies both placed below `total` would contradict the maximality of the lower one. */
  lemma MaximalMeansCoalesced(F: set<Pile>, total: int)
    requires forall b :: b in F ==> b.Aligned() && b.End() <= total && Maximal(b, total)
    ensures Coalesced(F)
  {
    forall b | b in F && b.order < MAX_ORDER - 1
      ensures BuddyOf(b) !in F
    {
      Buddies(b);
      Halves(Parent(b));
      assert LowerHalf(Parent(b)) in {b, BuddyOf(b)} && UpperHalf(Parent(b)) in {b, BuddyOf(b)};
    }
  }

  /** The order of the pile that initialization starts at page i: as large as the alignment of i and
      the pages left allow. */
  method LargestOrder(i: nat, total: nat) returns (ord: nat)
    requires i < total
    ensures Pile(i, ord).Aligned() && Pile(i, ord).End() <= total && Maximal(Pile(i, ord), total)
  {
    var pagesLeft := total - i;
    ord := IdxOrder(i);
    while Pow2(ord) > pagesLeft
      invariant Pile(i, ord).Aligned() && Maximal(Pile(i, ord), total)
    {
      AlignDown(i, ord - 1, ord);
      ord := ord - 1;
    }
  }

  /** Pages placed up to the end of the zone; a zone that its descriptors fill has no piles. */
  lemma PlacedUpTo(lo: nat, i: nat, total: nat, F: set<Pile>)
    requires Inv(State(lo, i, F, {})) && (i == total || (i == lo && total <= lo))
    ensures Inv(State(lo, total, F, {}))
  {
    assert F + {} == F;
  }

  /** Some level starts with a pile that contains the page. */
  ghost predicate HeadHas(levels: seq<seq<int>>, page: int) {
    exists k: nat :: k < |levels| && levels[k] != [] && Pile(levels[k][0], k).Has(page)
  }

  lemma HeadOfLevel(levels: seq<seq<int>>, k: nat, pg: int, b: Pile, page: int)
    requires k < |levels| && levels[k] != [] && levels[k][0] == pg && b.Within(Pile(pg, k)) && b.Has(page)
    ensures HeadHas(levels, page)
  {
    hide Pow2;
  }

  /** A used pile counts as in hand. */
  lemma UsedInHand(zone: Zone, page: nat)
    requires zone.Valid() && page < zone.total && Pile(page, zone.order[page]) in zone.used
    ensures zone.Holding(Pile(page, zone.order[page])) && Pile(page, zone.order[page]).Has(page)
  {
    hide Lists, Coalesced, Covered;
    assert Pile(page, zone.order[page]) in zone.free + zone.used;
  }

  // ---- the lists by value

  /** The lists after cutting p down to `ord`: each level in between has got the lower half left over there, in
      front of its other piles. */
  ghost predicate CutLists(was: seq<seq<int>>, now: seq<seq<int>>, p: Pile, ord: nat) {
    && |was| == |now| == MAX_ORDER
    && forall k: nat :: k < MAX_ORDER ==>
         now[k] == if ord <= k < p.order then [p.End() - Pow2(k + 1)] + was[k] else was[k]
  }

  lemma CutListsStep(was: seq<seq<int>>, now: seq<seq<int>>, p: Pile, j: nat)
    requires 0 < j <= p.order < MAX_ORDER && CutLists(was, now, p, j)
    ensures CutLists(was, now[j - 1 := [p.End() - Pow2(j)] + now[j - 1]], p, j - 1)
  {
    hide Pow2;
  }

  lemma NothingCut(s: State, levels: seq<seq<int>>, p: Pile)
    requires Inv(s) && Lists(levels, s.free) && p in s.used
    ensures p.order < MAX_ORDER && CutLists(levels, levels, p, p.order)
  {
    assert p in s.free + s.used;
  }

  lemma UpperEnds(b: Pile)
    requires b.order > 0
    ensures UpperHalf(b).End() == b.End()
  {
  }

  /** The aligned pile of order k around a page. */
  ghost function Around(page: int, k: nat): Pile { Pile(page - page % Pow2(k), k) }

  lemma AroundAligned(page: nat, k: nat)
    requires page % Pow2(k) == 0
    ensures Around(page, k) == Pile(page, k)
  {
  }

  lemma AroundParent(page: nat, k: nat)
    ensures Parent(Around(page, k)) == Around(page, k + 1)
  {
    hide Pow2;
    Pow2Half(k + 1);
    var p, r := Pow2(k), page % Pow2(k);
    var q := page / p;
    assert page == q * p + r;
    if q % 2 == 0 {
      EvenSplit(q, q / 2, p);
      DivModUnique(page, 2 * p, q / 2, r);
      DivModUnique(q * p, 2 * p, q / 2, 0);
    } else {
      OddSplit(q, q / 2, p);
      DivModUnique(page, 2 * p, q / 2, p + r);
      DivModUnique(q * p, 2 * p, q / 2, p);
    }
  }

  /** The lists after joining upwards from order low to order top around a page: each level in between has lost the
      buddy that was there. */
  ghost predicate JoinLists(was: seq<seq<int>>, now: seq<seq<int>>, page: int, low: nat, top: nat) {
    && |was| == |now| == MAX_ORDER
    && forall k: nat :: k < MAX_ORDER ==>
         if low <= k < top then
           var buddy := BuddyOf(Around(page, k)).idx;
           buddy in was[k] && now[k] == Ring.Without(was[k], buddy)
         else now[k] == was[k]
  }

  lemma NothingJoined(levels: seq<seq<int>>, F: set<Pile>, page: int, k: nat)
    requires Lists(levels, F)
    ensures JoinLists(levels, levels, page, k, k)
  {
  }

  lemma ListedOnce(levels: seq<seq<int>>, F: set<Pile>, k: nat)
    requires Lists(levels, F) && k < MAX_ORDER
    ensures Ring.Distinct(levels[k])
  {
  }

  lemma JoinListsStep(was: seq<seq<int>>, now: seq<seq<int>>, page: int, low: nat, top: nat, j: nat)
    requires low <= top < MAX_ORDER && JoinLists(was, now, page, low, top)
    requires j < |now[top]| && now[top][j] == BuddyOf(Around(page, top)).idx && Ring.Distinct(now[top])
    ensures JoinLists(was, now[top := now[top][..j] + now[top][j + 1..]], page, low, top + 1)
  {
    hide BuddyOf, Around, Ring.Without, Ring.Distinct, Ring.IndexOf;
    Ring.WithoutAt(now[top], now[top][j], j);
  }

  /** A zone of kernel/page_alloc.c: the free lists by level, and the order field of every page. */
  class Zone {
    const total: nat
    const consumed: nat
    var levels: seq<seq<int>>
    const order: array<nat>
    ghost var free: set<Pile>
    ghost var used: set<Pile>

    ghost function View(): State
      reads this
    {
      State(consumed, total, free, used)
    }

    ghost predicate Valid()
      reads this, order
    {
      && order.Length == total
      && Inv(View())
      && Lists(levels, free)
      && Orders(free + used, order[..])
    }

    /** The pages below i have been placed. */
    ghost predicate Placed(i: int)
      reads this, order
    {
      && order.Length == total
      && used == {}
      && Inv(State(consumed, i, free, {})) && Lists(levels, free)
      && Orders(free, order[..])
      && (forall b :: b in free ==> b.idx < i)
      && (forall b :: b in free ==> Maximal(b, total))
      && Ascending(levels)
    }

    method PlacePile(i: nat, ord: nat)
      requires consumed <= i && Placed(i)
      requires Pile(i, ord).Aligned() && Pile(i, ord).End() <= total && Maximal(Pile(i, ord), total)
      modifies this, order
      ensures Placed(i + Pow2(ord))
    {
      ghost var p, s := Pile(i, ord), State(consumed, i, free, {});
      PlaceKeepsInv(s, p, total);
      AppendAscending(levels, free, p);
      order[i] := ord;
      levels := levels[ord := levels[ord] + [i]];
      free := free + {p};
    }

    /** The loop of mem_zone_init. */
    method PlaceAll()
      requires Placed(consumed)
      modifies this, order
      ensures Valid() && used == {} && Ascending(levels)
    {
      hide Inv, Lists, Orders, Maximal, Ascending, Pow2;
      var i: nat := consumed;
      while i < total
        invariant consumed <= i && (i <= total || i == consumed) && Placed(i)
        decreases total - i
      {
        var ord := LargestOrder(i, total);
        PlacePile(i, ord);
        i := i + Pow2(ord);
      }
      PlacedUpTo(consumed, i, total, free);
      assert free + {} == free;
    }

    /** mem_zone_init: page descriptors eat the first pages, the rest is cut into maximal piles. */
    constructor (total: nat)
      ensures Valid() && fresh(order) && this.total == total
      ensures consumed == 32 * total / 4096 + 1 && |levels| == 11
      ensures used == {}
      ensures Ascending(levels)
    {
      this.total := total;
      consumed := STRUCT_PAGE_SIZE * total / PAGE_SIZE + 1;
      order := new nat[total](_ => 0);
      levels := seq(MAX_ORDER, _ => []);
      free, used := {}, {};
      new;
      PlaceAll();
    }

    /** Valid except that pile `hand` counts as used while its order field is not up to date. */
    ghost predicate Holding(hand: Pile)
      reads this, order
    {
      && order.Length == total
      && Inv(View())
      && Lists(levels, free)
      && hand in used
      && Orders(free + used - {hand}, order[..])
      && 0 <= hand.idx < total && hand.Aligned()
    }

    method UnlinkHead(i: nat) returns (pile: nat)
      requires Valid() && i < MAX_ORDER && levels[i] != []
      modifies this
      ensures pile == old(levels)[i][0] && Holding(Pile(pile, i))
      ensures Pile(pile, i) in old(free)
      ensures free == old(free) - {Pile(pile, i)} && used == old(used) + {Pile(pile, i)}
      ensures levels == old(levels)[i := old(levels)[i][1..]]
    {
      ghost var p := Pile(levels[i][0], i);
      assert levels[i][0] in levels[i] && p in free + used;
      ListsUnlink(levels, free, i, 0);
      TakeKeepsInv(View(), p);
      pile := levels[i][0];
      assert levels[i][..0] + levels[i][0 + 1..] == levels[i][1..];
      levels := levels[i := levels[i][1..]];
      free, used := free - {p}, used + {p};
    }

    /** Body of the splitting loop: link the lower half of a pile of order i + 1, go on with the upper. */
    method LinkLowerHalf(pile: nat, i: nat) returns (upper: nat)
      requires Holding(Pile(pile, i + 1))
      modifies this, order
      ensures Holding(Pile(upper, i)) && Pile(upper, i) == UpperHalf(Pile(pile, i + 1))
      ensures free == old(free) + {LowerHalf(Pile(pile, i + 1))}
      ensures used == old(used) - {Pile(pile, i + 1)} + {Pile(upper, i)}
      ensures Pile(upper, i) !in old(used)
      ensures |old(levels)| == MAX_ORDER && i < MAX_ORDER && levels == old(levels)[i := [pile] + old(levels)[i]]
    {
      ghost var whole := Pile(pile, i + 1);
      ghost var l, u := LowerHalf(whole), UpperHalf(whole);
      HalveKeepsInv(View(), whole);
      ListsInsert(levels, free, l);
      OpeningPagesDiffer(View(), whole);
      PileInZone(View().(free := free + {l}, used := used - {whole} + {u}), u);
      hide Inv, Lists;
      assert free + {l} + (used - {whole} + {u}) - {u} == free + used - {whole} + {l};
      order[pile] := i;
      levels := levels[i := [pile] + levels[i]];
      free, used := free + {l}, used - {whole} + {u};
      upper := pile + Pow2(i);
    }

    method MarkUsed(pile: nat, ord: nat)
      requires Holding(Pile(pile, ord))
      modifies order
      ensures Valid()
    {
      hide Inv, Lists;
      OpeningPagesDiffer(View(), Pile(pile, ord));
      order[pile] := ord;
    }

    /** The splitting loop of __alloc_pages, from a pile of order i in hand down to `ord`. */
    method CutDown(from: nat, i: nat, ord: nat) returns (pile: nat)
      requires ord <= i && Holding(Pile(from, i))
      modifies this, order
      ensures Valid() && Pile(pile, ord) == Kept(Pile(from, i), ord)
      ensures free == Split(old(free), Pile(from, i), ord)
      ensures used == old(used) - {Pile(from, i)} + {Pile(pile, ord)}
      ensures CutLists(old(levels), levels, Pile(from, i), ord)
    {
      hide Inv, Lists, Orders, Split, Kept, LowerHalf, UpperHalf, Pow2, CutLists;
      NothingCut(View(), levels, Pile(from, i));
      pile := from;
      var j := i;
      ghost var p, rest := Pile(from, i), used - {Pile(from, i)};
      while j > ord
        invariant ord <= j && Holding(Pile(pile, j)) && used - {Pile(pile, j)} == rest
        invariant Split(old(free), p, ord) == Split(free, Pile(pile, j), ord)
        invariant Kept(Pile(pile, j), ord) == Kept(p, ord)
        invariant j <= i < MAX_ORDER && pile + Pow2(j) == p.End() && CutLists(old(levels), levels, p, j)
      {
        SplitStep(free, Pile(pile, j), ord);
        CutListsStep(old(levels), levels, p, j);
        UpperEnds(Pile(pile, j));
        j := j - 1;
        pile := LinkLowerHalf(pile, j);
      }
      SplitDone(free, Pile(pile, ord));
      MarkUsed(pile, ord);
    }

    /** __alloc_pages: the head of the lowest sufficient non-empty level is cut down to size. */
    method AllocPages(ord: nat) returns (r: Option<int>)
      requires Valid()
      modifies this, order
      ensures Valid()
      ensures var i := FirstFit(old(levels), ord);
        if i < MAX_ORDER then
          var p := Pile(old(levels)[i][0], i);
          && Next(old(View()), Alloc(ord, p), View()) && r == Some(Kept(p, ord).idx)
          && CutLists(old(levels)[i := old(levels)[i][1..]], levels, p, ord)
        else
          r.None? && Next(old(View()), Refuse(ord), View()) && levels == old(levels)
    {
      var i := ord;
      assert forall b :: b in free ==> b in free + used;
      FirstFitIsBest(levels, free, ord);
      while i < MAX_ORDER && levels[i] == []
        invariant ord <= i && FirstFit(levels, ord) == FirstFit(levels, i)
        decreases MAX_ORDER - i
      {
        i := i + 1;
      }
      if i >= MAX_ORDER {
        return None;
      }
      ghost var start, p := View(), Pile(levels[i][0], i);
      var pile := UnlinkHead(i);
      assert start.used == used - {p};
      pile := CutDown(pile, i, ord);
      r := Some(pile);
    }

    /** The search in free_pages: the left neighbour counts if it is aligned to the next order, the
        right one if pg is.  At most one of the two exists, and it is the buddy. */
    method FindBuddy(level: seq<int>, pg: nat, ord: nat) returns (r: Option<nat>)
      requires Pile(pg, ord).Aligned() && forall i :: i in level ==> i >= 0 && i % Pow2(ord) == 0
      ensures r.Some? ==> ord < MAX_ORDER - 1 && r.value < |level| && Pile(level[r.value], ord) == BuddyOf(Pile(pg, ord))
      ensures r.None? && ord < MAX_ORDER - 1 ==> BuddyOf(Pile(pg, ord)).idx !in level
    {
      var j := 0;
      OddMultiple(pg, Pow2(ord));
      while j < |level|
        invariant 0 <= j <= |level|
        invariant ord < MAX_ORDER - 1 ==> BuddyOf(Pile(pg, ord)).idx !in level[..j]
      {
        assert level[j] in level;
        var neighbour := level[j];
        var there := IdxOrder(neighbour);
        if pg - neighbour == Pow2(ord) && there > ord {
          return Some(j);
        }
        var here := IdxOrder(pg);
        if neighbour - pg == Pow2(ord) && here > ord {
          return Some(j);
        }
        j := j + 1;
      }
      assert level[..j] == level;
      return None;
    }

    /** A joining step of free_pages: unlink the buddy found at position j, the parent is in hand now. */
    method JoinBuddy(pg: nat, ord: nat, j: nat) returns (parent: nat)
      requires Holding(Pile(pg, ord)) && order[pg] == ord < MAX_ORDER - 1
      requires j < |levels[ord]| && Pile(levels[ord][j], ord) == BuddyOf(Pile(pg, ord))
      modifies this, order
      ensures Holding(Pile(parent, ord + 1)) && Pile(parent, ord + 1) == Parent(Pile(pg, ord))
      ensures order[parent] == ord + 1
      ensures free == old(free) - {BuddyOf(Pile(pg, ord))}
      ensures used == old(used) - {Pile(pg, ord)} + {Pile(parent, ord + 1)}
      ensures Pile(parent, ord + 1) !in old(used)
      ensures Pile(pg, ord).Within(Pile(parent, ord + 1))
      ensures ord < |old(levels)| && j < |old(levels)[ord]|
      ensures levels == old(levels)[ord := old(levels)[ord][..j] + old(levels)[ord][j + 1..]]
    {
      ghost var hand, buddy, whole := Pile(pg, ord), BuddyOf(Pile(pg, ord)), Parent(Pile(pg, ord));
      var neighbour := levels[ord][j];
      ListedPiles(View(), levels, ord);
      ListsUnlink(levels, free, ord, j);
      JoinKeepsInv(View(), hand);
      JoinKeepsOrders(View(), order[..], hand);
      hide Inv, Lists, Orders, Pow2, BuddyOf, Parent;
      levels := levels[ord := levels[ord][..j] + levels[ord][j + 1..]];
      free, used := free - {buddy}, used - {hand} + {whole};
      parent := if neighbour < pg then neighbour else pg;
      order[parent] := order[parent] + 1;
    }

    /** The final insert of free_pages, at the head of the pile's level. */
    method LinkPile(pg: nat)
      requires order.Length == total && pg < total && Holding(Pile(pg, order[pg]))
      requires order[pg] < MAX_ORDER - 1 ==> BuddyOf(Pile(pg, order[pg])) !in free
      modifies this
      ensures Valid() && order[pg] < MAX_ORDER == |old(levels)|
      ensures levels == old(levels)[order[pg] := [pg] + old(levels)[order[pg]]]
      ensures free == old(free) + {Pile(pg, order[pg])} && used == old(used) - {Pile(pg, order[pg])}
    {
      ghost var hand := Pile(pg, order[pg]);
      PutKeepsInv(View(), hand);
      ListsInsert(levels, free, hand);
      levels := levels[order[pg] := [pg] + levels[order[pg]]];
      free, used := free + {hand}, used - {hand};
      assert free + used == old(free + used);
    }

    /** The loop of free_pages: join with the free buddy, level after level. */
    method JoinUp(page: nat) returns (pg: nat)
      requires order.Length == total && page < total && Holding(Pile(page, order[page]))
      modifies this, order
      ensures order.Length == total && pg < total && Holding(Pile(pg, order[pg]))
      ensures order[pg] < MAX_ORDER - 1 ==> BuddyOf(Pile(pg, order[pg])) !in free
      ensures used - {Pile(pg, order[pg])} == old(used - {Pile(page, order[page])})
      ensures Merge(old(free), old(Pile(page, order[page]))) == Merge(free, Pile(pg, order[pg]))
      ensures old(Pile(page, order[page])).Within(Pile(pg, order[pg]))
      ensures Pile(pg, order[pg]) == Around(page, order[pg])
      ensures JoinLists(old(levels), levels, page, old(order[page]), order[pg])
    {
      hide Inv, Lists, Orders, Pow2, Parent, JoinLists, Around;
      pg := page;
      AroundAligned(page, order[page]);
      NothingJoined(levels, free, page, order[page]);
      while true
        invariant order.Length == total && pg < total && Holding(Pile(pg, order[pg]))
        invariant used - {Pile(pg, order[pg])} == old(used - {Pile(page, order[page])})
        invariant Merge(old(free), old(Pile(page, order[page]))) == Merge(free, Pile(pg, order[pg]))
        invariant old(Pile(page, order[page])).Within(Pile(pg, order[pg]))
        invariant old(order[page]) <= order[pg] && Pile(pg, order[pg]) == Around(page, order[pg])
        invariant JoinLists(old(levels), levels, page, old(order[page]), order[pg])
        decreases MAX_ORDER - order[pg]
      {
        var ord := order[pg];
        ghost var hand := Pile(pg, ord);
        ListedPiles(View(), levels, ord);
        var j := FindBuddy(levels[ord], pg, ord);
        assert j.None? && ord < MAX_ORDER - 1 ==> BuddyOf(hand) !in free;
        hide BuddyOf;
        if j.Some? {
          AroundParent(page, ord);
          ListedOnce(levels, free, ord);
          JoinListsStep(old(levels), levels, page, old(order[page]), ord, j.value);
          pg := JoinBuddy(pg, ord, j.value);
        }
        if !(order[pg] < MAX_ORDER && ord != order[pg]) {
          break;
        }
      }
    }

    /** free_pages: link what has become of the freed pile, of order `top` now, at the head of its level. */
    method FreePages(page: nat) returns (ghost top: nat)
      requires Valid()
      requires page < total && Pile(page, order[page]) in used
      modifies this, order
      ensures Valid()
      ensures Next(old(View()), Free(Pile(page, old(order[page]))), View())
      ensures HeadHas(levels, page)
      ensures top < MAX_ORDER == |levels| && levels[top] != [] && levels[top][0] == Around(page, top).idx
      ensures JoinLists(old(levels), levels[top := levels[top][1..]], page, old(order[page]), top)
    {
      hide Inv, Lists, Orders, Pow2, Merge, JoinLists, Around;
      UsedInHand(this, page);
      var pg := JoinUp(page);
      MergeDone(free, Pile(pg, order[pg]));
      top := order[pg];
      ghost var joined := levels;
      LinkPile(pg);
      assert levels[top][1..] == joined[top] && levels[top := levels[top][1..]] == joined;
      HeadOfLevel(levels, order[pg], pg, old(Pile(page, order[page])), page);
    }
  }
}
