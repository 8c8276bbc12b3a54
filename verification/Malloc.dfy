/** malloc and free of usr/klibc/malloc.c, in place: block headers in memory, linked into a chain of all
    blocks by address and a chain of the free blocks, both through the static head node.

    Every header field is a map from block address to value, so that writing through a pointer is a map
    update and aliasing between neighbours and the head is as in the source.  The methods are proved to
    keep the chains in step with the block sequence of module Heap and to take its steps. */
module Malloc {
  import opened Wrappers
  import opened Powers
  import opened Ring
  import opened Heap

  datatype Kind = UsedBlock | FreeBlock | HeadNode

  /** The address of __malloc_head. */
  const HEAD: int := 0

  /** align_up of sbrk.c. */
  function AlignUp(p: int): int { (p + SBRK_ALIGNMENT - 1) / SBRK_ALIGNMENT * SBRK_ALIGNMENT }

  /** The least multiple of 32 that is not below p. */
  lemma AlignUpMeans(p: int)
    ensures p <= AlignUp(p) < p + 32 && AlignUp(p) % 32 == 0 && AlignUp(p) % HEADER == 0
  {
    var q := (p + SBRK_ALIGNMENT - 1) / SBRK_ALIGNMENT;
    assert AlignUp(p) == 2 * q * HEADER;
    MultipleMod(2 * q, HEADER);
    MultipleMod(q, 32);
  }

  // ---- the free chain by value

  /** The chain after block k has been carved: the rest takes the place of the block, or nothing does. */
  ghost function ChainCarved(bs: seq<Block>, k: nat, need: int, frees: seq<int>): seq<int>
    requires k < |bs|
  {
    var a := bs[k].addr;
    if a !in frees then frees
    else if Splits(bs[k], need) then frees[IndexOf(frees, a) := a + need]
    else Without(frees, a)
  }

  ghost function ChainWithout(frees: seq<int>, a: int): seq<int> { if a in frees then Without(frees, a) else frees }

  /** The chain after block k has been freed: a block that joins the one on its left is not put on it, any other comes
      first; the block on the right that it joins leaves it. */
  ghost function ChainReleased(bs: seq<Block>, k: nat, frees: seq<int>): seq<int>
    requires k < |bs|
  {
    var (cs, i) := ReleaseLeft(bs, k);
    var f := if JoinsLeft(bs, k) then frees else [bs[k].addr] + frees;
    if Mergeable(cs, i) then ChainWithout(f, cs[i + 1].addr) else f
  }

  /** The chain after a step of the heap. */
  ghost function ChainAfter(s: State, op: Op, frees: seq<int>): seq<int>
    requires (op.Fit? || op.Free? ==> op.k < |s.blocks|)
  {
    match op
    case Fit(need, k) => ChainCarved(s.blocks, k, need, frees)
    case Grow(need, start, _) =>
      var bs := s.blocks + [Block(start, ChunkUp(need), false)];
      var (cs, k) := Release(bs, |s.blocks|);
      ChainCarved(cs, k, need, ChainReleased(bs, |s.blocks|, frees))
    case Fail(_) => frees
    case Free(k, _) =>
      var (cs, i) := Release(s.blocks, k);
      var f := ChainReleased(s.blocks, k, frees);
      if HandsBack(cs[i], s.brk) then ChainWithout(f, cs[i].addr) else f
  }

  lemma HandedByGrow(s: State, op: Op, bs: seq<Block>, k: nat)
    requires op.Grow? && k < |bs|
    requires (bs, k) == Release(s.blocks + [Block(op.start, ChunkUp(op.need), false)], |s.blocks|)
    ensures Handed(s, op) == Carve(bs, k, op.need)[k]
  {
    hide Release, Carve, ChunkUp;
  }

  lemma FreesAt(nextFree: map<int, int>, prevFree: map<int, int>, frees: seq<int>, m: nat, a: int)
    requires IsRing(nextFree, prevFree, FreeRing(frees)) && m < |frees| && frees[m] == a
    ensures a in frees && IndexOf(frees, a) == m && Without(frees, a) == RemoveAt(frees, m)
  {
    hide IndexOf, RemoveAt, Without;
    forall i, j | 0 <= i < j < |frees| ensures frees[i] != frees[j] {
      assert FreeRing(frees)[i + 1] == frees[i] && FreeRing(frees)[j + 1] == frees[j];
    }
    WithoutAt(frees, a, m);
  }

  function Addrs(bs: seq<Block>): (r: seq<int>)
    ensures |r| == |bs| && forall i :: 0 <= i < |r| ==> r[i] == bs[i].addr
  {
    seq(|bs|, i requires 0 <= i < |bs| => bs[i].addr)
  }

  function MainRing(bs: seq<Block>): seq<int> { [HEAD] + Addrs(bs) }

  function FreeRing(frees: seq<int>): seq<int> { [HEAD] + frees }

  ghost predicate IsFreeAddr(bs: seq<Block>, a: int) { exists i :: 0 <= i < |bs| && bs[i].free && bs[i].addr == a }

  /** The free chain holds exactly the free blocks. */
  ghost predicate FreeListed(frees: seq<int>, bs: seq<Block>) {
    forall a :: a in frees <==> IsFreeAddr(bs, a)
  }

  /** The header of a block tells its type and size. */
  ghost predicate HeaderOf(typ: map<int, Kind>, size: map<int, int>, b: Block) {
    && b.addr in typ && typ[b.addr] == (if b.free then FreeBlock else UsedBlock)
    && b.addr in size && size[b.addr] == b.size
  }

  ghost predicate Tagged(typ: map<int, Kind>, size: map<int, int>, bs: seq<Block>) {
    && HEAD in typ && HEAD in size && typ[HEAD] == HeadNode
    && forall b :: b in bs ==> HeaderOf(typ, size, b)
  }

  /** All headers are right, except that the type of block `hand`, if there is one, is not settled. */
  ghost predicate TaggedBut(typ: map<int, Kind>, size: map<int, int>, bs: seq<Block>, hand: int) {
    if 0 <= hand < |bs| then
      && Tagged(typ, size, bs[..hand]) && Tagged(typ, size, bs[hand + 1..])
      && bs[hand].addr in typ && bs[hand].addr in size && size[bs[hand].addr] == bs[hand].size
    else
      Tagged(typ, size, bs)
  }

  // ---- block sequences and their chains

  lemma AddrsDiffer(bs: seq<Block>, brk: int)
    requires Placed(bs, brk)
    ensures forall i, j :: 0 <= i < j < |bs| ==> bs[i].addr < bs[j].addr
    ensures forall i :: 0 <= i < |bs| ==> bs[i].addr > 0
  {
    forall i, j | 0 <= i < j < |bs|
      ensures bs[i].addr < bs[j].addr
    {
      assert WellSized(bs[i]) && bs[i].End() <= bs[j].addr;
    }
    assert forall i :: 0 <= i < |bs| ==> WellSized(bs[i]);
  }

  /** No block starts inside another one. */
  lemma InsideIsNoAddr(bs: seq<Block>, brk: int, k: nat, x: int)
    requires Placed(bs, brk) && k < |bs| && bs[k].addr < x < bs[k].End()
    ensures x !in MainRing(bs) && !IsFreeAddr(bs, x)
  {
    assert WellSized(bs[k]);
    forall i | 0 <= i < |bs|
      ensures bs[i].addr != x
    {
      assert WellSized(bs[i]);
    }
  }

  lemma RingAt(bs: seq<Block>, k: nat)
    requires k < |bs|
    ensures |MainRing(bs)| == |bs| + 1 && MainRing(bs)[k + 1] == bs[k].addr && MainRing(bs)[0] == HEAD
  {
  }

  lemma AddrsConcat(a: seq<Block>, b: seq<Block>)
    ensures Addrs(a + b) == Addrs(a) + Addrs(b)
  {
  }

  lemma AddrsSlice(bs: seq<Block>, i: nat, j: nat)
    requires i <= j <= |bs|
    ensures Addrs(bs[i..j]) == Addrs(bs)[i..j] && Addrs(bs[..i]) == Addrs(bs)[..i] && Addrs(bs[j..]) == Addrs(bs)[j..]
  {
  }

  lemma HeadedSlices(x: seq<int>, i: nat, j: nat, mid: seq<int>)
    requires i <= j <= |x|
    ensures [HEAD] + (x[..i] + mid + x[j..]) == ([HEAD] + x)[..i + 1] + mid + ([HEAD] + x)[j + 1..]
  {
    assert ([HEAD] + x)[..i + 1] == [HEAD] + x[..i];
    assert ([HEAD] + x)[j + 1..] == x[j..];
  }

  lemma SpliceRing(bs: seq<Block>, i: nat, j: nat, mid: seq<Block>)
    requires i <= j <= |bs|
    ensures MainRing(Splice(bs, i, j, mid)) == MainRing(bs)[..i + 1] + Addrs(mid) + MainRing(bs)[j + 1..]
  {
    hide Addrs;
    AddrsConcat(bs[..i] + mid, bs[j..]);
    AddrsConcat(bs[..i], mid);
    AddrsSlice(bs, i, j);
    HeadedSlices(Addrs(bs), i, j, Addrs(mid));
  }

  lemma FreeAddrConcat(a: seq<Block>, b: seq<Block>, x: int)
    ensures IsFreeAddr(a + b, x) <==> IsFreeAddr(a, x) || IsFreeAddr(b, x)
  {
    if i :| 0 <= i < |a| && a[i].free && a[i].addr == x {
      assert (a + b)[i] == a[i];
    }
    if i :| 0 <= i < |b| && b[i].free && b[i].addr == x {
      assert (a + b)[|a| + i] == b[i];
    }
    if i :| 0 <= i < |a + b| && (a + b)[i].free && (a + b)[i].addr == x {
      assert if i < |a| then a[i] == (a + b)[i] else b[i - |a|] == (a + b)[i];
    }
  }

  lemma SpliceFreeAddr(bs: seq<Block>, brk: int, i: nat, j: nat, mid: seq<Block>, x: int)
    requires Placed(bs, brk) && i <= j <= |bs|
    ensures IsFreeAddr(Splice(bs, i, j, mid), x) <==>
      (IsFreeAddr(bs, x) && !IsFreeAddr(bs[i..j], x)) || IsFreeAddr(mid, x)
  {
    AddrsDiffer(bs, brk);
    hide Placed;
    assert bs == bs[..i] + bs[i..j] + bs[j..];
    FreeAddrConcat(bs[..i] + bs[i..j], bs[j..], x);
    FreeAddrConcat(bs[..i], bs[i..j], x);
    FreeAddrConcat(bs[..i] + mid, bs[j..], x);
    FreeAddrConcat(bs[..i], mid, x);
    if n :| 0 <= n < j - i && bs[i..j][n].free && bs[i..j][n].addr == x {
      assert bs[i + n].addr == x;
      assert forall m :: 0 <= m < i ==> bs[..i][m].addr < bs[i + n].addr;
      assert forall m :: 0 <= m < |bs| - j ==> bs[i + n].addr < bs[j..][m].addr;
    }
  }

  lemma FreeAddrOne(b: Block, x: int)
    ensures IsFreeAddr([b], x) <==> b.free && b.addr == x
  {
    assert [b][0] == b;
  }

  lemma PairInserts(r: seq<int>, k: nat, x: int)
    requires k < |r|
    ensures r[..k] + [r[k], x] + r[k + 1..] == InsertAfter(r, k, x)
  {
    assert r[..k + 1] == r[..k] + [r[k]];
  }

  lemma PairAddrs(a: Block, b: Block)
    ensures Addrs([a, b]) == [a.addr, b.addr]
  {
  }

  /** Splitting block k puts one address behind it in the main chain. */
  lemma SplitRing(bs: seq<Block>, k: nat, need: int)
    requires k < |bs| && Splits(bs[k], need)
    ensures MainRing(Carve(bs, k, need)) == InsertAfter(MainRing(bs), k + 1, bs[k].addr + need)
  {
    hide InsertAfter, MainRing, Addrs;
    var r, mid := MainRing(bs), CarvePieces(bs[k], need);
    SpliceRing(bs, k, k + 1, mid);
    PairAddrs(mid[0], mid[1]);
    RingAt(bs, k);
    PairInserts(r, k + 1, bs[k].addr + need);
  }

  /** Changing the state of a block leaves the main chain alone. */
  lemma RetagRing(bs: seq<Block>, k: nat, free: bool)
    requires k < |bs|
    ensures MainRing(Splice(bs, k, k + 1, [bs[k].(free := free)])) == MainRing(bs)
  {
    assert Addrs(Splice(bs, k, k + 1, [bs[k].(free := free)])) == Addrs(bs);
  }

  lemma FreePosition(frees: seq<int>, bs: seq<Block>, k: nat) returns (m: nat)
    requires FreeListed(frees, bs) && k < |bs| && bs[k].free
    ensures 0 < m <= |frees| && m < |FreeRing(frees)| && FreeRing(frees)[m] == bs[k].addr == frees[m - 1]
  {
    assert IsFreeAddr(bs, bs[k].addr);
    var j :| 0 <= j < |frees| && frees[j] == bs[k].addr;
    m := j + 1;
  }

  lemma OutsideAddr(bs: seq<Block>, brk: int, i: nat, j: nat, b: Block)
    requires Placed(bs, brk) && i < j <= |bs| && (b in bs[..i] || b in bs[j..])
    ensures b.addr > 0 && !(bs[i].addr <= b.addr < bs[j - 1].End())
  {
    var m :| 0 <= m < |bs| && (m < i || m >= j) && bs[m] == b;
    assert WellSized(bs[m]);
  }

  /** Headers after replacing the blocks i..j by `mid`, if only headers in that stretch were written. */
  lemma RetagSplice(typ: map<int, Kind>, size: map<int, int>, typ': map<int, Kind>, size': map<int, int>,
                    bs: seq<Block>, brk: int, i: nat, j: nat, mid: seq<Block>)
    requires Placed(bs, brk) && i < j <= |bs|
    requires Tagged(typ, size, bs[..i]) && Tagged(typ, size, bs[j..]) && Tagged(typ', size', mid)
    requires forall a :: a in typ && !(bs[i].addr <= a < bs[j - 1].End()) ==> a in typ' && typ'[a] == typ[a]
    requires forall a :: a in size && !(bs[i].addr <= a < bs[j - 1].End()) ==> a in size' && size'[a] == size[a]
    ensures Tagged(typ', size', Splice(bs, i, j, mid))
  {
    forall b | b in Splice(bs, i, j, mid)
      ensures HeaderOf(typ', size', b)
    {
      if b in bs[..i] || b in bs[j..] {
        OutsideAddr(bs, brk, i, j, b);
        assert HeaderOf(typ, size, b);
      }
    }
  }

  lemma ReadHeader(typ: map<int, Kind>, size: map<int, int>, bs: seq<Block>, k: nat)
    requires Tagged(typ, size, bs) && k < |bs|
    ensures HeaderOf(typ, size, bs[k])
  {
  }

  lemma RingDistinct(next: map<int, int>, prev: map<int, int>, r: seq<int>)
    requires IsRing(next, prev, r)
    ensures Distinct(r)
  {
  }

  lemma CarvePlaced(bs: seq<Block>, brk: int, k: nat, need: int)
    requires Placed(bs, brk) && k < |bs| && need % HEADER == 0 && 2 * HEADER <= need <= bs[k].size
    ensures Placed(Carve(bs, k, need), brk)
  {
    CarveFills(bs, brk, k, need);
    SplicePlaced(bs, brk, k, k + 1, CarvePieces(bs[k], need));
  }

  lemma SplitFrees(bs: seq<Block>, brk: int, k: nat, need: int, frees: seq<int>, m: nat)
    requires Placed(bs, brk) && k < |bs| && bs[k].free && 2 * HEADER <= need && Splits(bs[k], need)
    requires FreeListed(frees, bs) && 0 < m <= |frees| && frees[m - 1] == bs[k].addr && Distinct(FreeRing(frees))
    ensures bs[k].addr + need !in FreeRing(frees)
    ensures FreeListed(frees[m - 1 := bs[k].addr + need], Carve(bs, k, need))
    ensures FreeRing(frees[m - 1 := bs[k].addr + need]) == FreeRing(frees)[m := bs[k].addr + need]
  {
    hide Placed, Distinct, IsFreeAddr, Carve;
    forall a
      ensures a in frees[m - 1 := bs[k].addr + need] <==> IsFreeAddr(Carve(bs, k, need), a)
    {
      SplitFreeMember(bs, brk, k, need, frees, m, a);
    }
    WellPlaced(bs, brk, k);
    InsideIsNoAddr(bs, brk, k, bs[k].addr + need);
    ListedFree(frees, bs, bs[k].addr + need);
  }

  lemma WellPlaced(bs: seq<Block>, brk: int, k: nat)
    requires Placed(bs, brk) && k < |bs|
    ensures WellSized(bs[k])
  {
  }

  lemma SplitFreeMember(bs: seq<Block>, brk: int, k: nat, need: int, frees: seq<int>, m: nat, a: int)
    requires Placed(bs, brk) && k < |bs| && bs[k].free && Splits(bs[k], need)
    requires FreeListed(frees, bs) && 0 < m <= |frees| && frees[m - 1] == bs[k].addr && Distinct(FreeRing(frees))
    ensures a in frees[m - 1 := bs[k].addr + need] <==> IsFreeAddr(Carve(bs, k, need), a)
  {
    hide Placed, Distinct, IsFreeAddr, FreeListed, FreeRing;
    var b, mid := bs[k], CarvePieces(bs[k], need);
    assert bs[k..k + 1] == [b] && mid == [mid[0]] + [mid[1]];
    SpliceFreeAddr(bs, brk, k, k + 1, mid, a);
    FreeAddrOne(b, a);
    FreeAddrOne(mid[0], a);
    FreeAddrOne(mid[1], a);
    FreeAddrConcat([mid[0]], [mid[1]], a);
    UpdatedMembers(frees, m - 1, b.addr + need, a);
    ListedFree(frees, bs, a);
  }

  lemma ListedFree(frees: seq<int>, bs: seq<Block>, a: int)
    requires FreeListed(frees, bs)
    ensures a in frees <==> IsFreeAddr(bs, a)
  {
  }

  lemma UpdatedMembers(s: seq<int>, i: nat, v: int, a: int)
    requires Distinct(FreeRing(s)) && i < |s|
    ensures a in s[i := v] <==> (a in s && a != s[i]) || a == v
  {
    var t, r := s[i := v], FreeRing(s);
    assert t[i] == v;
    assert s == r[1..];
    if a in s && a != s[i] {
      var j :| 0 <= j < |s| && s[j] == a;
      assert t[j] == a;
    }
    if a in t && a != v {
      var j :| 0 <= j < |t| && t[j] == a;
      assert s[j] == a && r[j + 1] == a && r[i + 1] == s[i];
    }
  }

  lemma TaggedParts(typ: map<int, Kind>, size: map<int, int>, bs: seq<Block>, i: nat, j: nat)
    requires Tagged(typ, size, bs) && i <= j <= |bs|
    ensures Tagged(typ, size, bs[..i]) && Tagged(typ, size, bs[j..])
  {
    hide HeaderOf;
    assert forall b :: b in bs[..i] || b in bs[j..] ==> b in bs;
  }

  lemma SplitHeaders(typ: map<int, Kind>, size: map<int, int>, b: Block, need: int)
    requires HEAD in typ && HEAD in size && typ[HEAD] == HeadNode && b.addr > 0 && need > 0 && Splits(b, need)
    ensures Tagged(typ[b.addr + need := FreeBlock][b.addr := UsedBlock],
                   size[b.addr + need := b.size - need][b.addr := need], CarvePieces(b, need))
  {
  }

  lemma SplitTags(typ: map<int, Kind>, size: map<int, int>, bs: seq<Block>, brk: int, k: nat, need: int)
    requires Placed(bs, brk) && Tagged(typ, size, bs) && k < |bs|
    requires need % HEADER == 0 && 2 * HEADER <= need && Splits(bs[k], need)
    ensures var (b, nfp) := (bs[k], bs[k].addr + need);
      Tagged(typ[nfp := FreeBlock][b.addr := UsedBlock], size[nfp := b.size - need][b.addr := need], Carve(bs, k, need))
  {
    hide Placed, HeaderOf, CarvePieces, Splice;
    var b := bs[k];
    WellPlaced(bs, brk, k);
    TaggedParts(typ, size, bs, k, k + 1);
    SplitHeaders(typ, size, b, need);
    CarveIsSplice(bs, k, need);
    RetagSplice(typ, size, typ[b.addr + need := FreeBlock][b.addr := UsedBlock],
      size[b.addr + need := b.size - need][b.addr := need], bs, brk, k, k + 1, CarvePieces(b, need));
  }

  lemma CarveIsSplice(bs: seq<Block>, k: nat, need: int)
    requires k < |bs| && Splits(bs[k], need)
    ensures Carve(bs, k, need) == Splice(bs, k, k + 1, CarvePieces(bs[k], need))
  {
  }

  /** All that splitting block k asks of the chains and headers, and leaves there. */
  lemma SplitFacts(typ: map<int, Kind>, size: map<int, int>, nextFree: map<int, int>, prevFree: map<int, int>,
                   bs: seq<Block>, brk: int, k: nat, need: int, frees: seq<int>) returns (m: nat)
    requires Placed(bs, brk) && Tagged(typ, size, bs) && FreeListed(frees, bs)
    requires IsRing(nextFree, prevFree, FreeRing(frees))
    requires k < |bs| && bs[k].free && need % HEADER == 0 && 2 * HEADER <= need && Splits(bs[k], need)
    ensures var (fp, r, fr) := (bs[k].addr, MainRing(bs), FreeRing(frees));
      var (nfp, cs) := (fp + need, Carve(bs, k, need));
      && fp in size && size[fp] == bs[k].size
      && k + 1 < |r| && r[k + 1] == fp && nfp !in r && MainRing(cs) == InsertAfter(r, k + 1, nfp)
      && 0 < m < |fr| && m <= |frees| && frees[m - 1] == fr[m] == fp && nfp !in fr && FreeRing(frees[m - 1 := nfp]) == fr[m := nfp]
      && Placed(cs, brk) && FreeListed(frees[m - 1 := nfp], cs)
      && Tagged(typ[nfp := FreeBlock][fp := UsedBlock], size[nfp := bs[k].size - need][fp := need], cs)
  {
    hide Placed, IsRing, Tagged, FreeListed, Carve, IsFreeAddr, Distinct, InsertAfter, MainRing, FreeRing;
    m := FreePosition(frees, bs, k);
    ReadHeader(typ, size, bs, k);
    RingAt(bs, k);
    RingDistinct(nextFree, prevFree, FreeRing(frees));
    SplitFrees(bs, brk, k, need, frees, m);
    WellPlaced(bs, brk, k);
    InsideIsNoAddr(bs, brk, k, bs[k].addr + need);
    SplitRing(bs, k, need);
    CarvePlaced(bs, brk, k, need);
    SplitTags(typ, size, bs, brk, k, need);
  }

  lemma RemovedRing(s: seq<int>, i: nat)
    requires i < |s|
    ensures FreeRing(RemoveAt(s, i)) == RemoveAt(FreeRing(s), i + 1)
  {
  }

  lemma RemovedMembers(s: seq<int>, i: nat, a: int)
    requires Distinct(FreeRing(s)) && i < |s|
    ensures a in RemoveAt(s, i) <==> a in s && a != s[i]
  {
    var t, r := RemoveAt(s, i), FreeRing(s);
    forall j | 0 <= j < |s| && j != i
      ensures s[j] != s[i]
    {
      assert s[j] == r[j + 1] && s[i] == r[i + 1];
    }
    if a in s && a != s[i] {
      var j :| 0 <= j < |s| && s[j] == a;
      assert t[if j < i then j else j - 1] == a;
    }
    if a in t {
      var j :| 0 <= j < |t| && t[j] == a;
      assert s[if j < i then j else j + 1] == a;
    }
  }

  /** A block taken off the free chain, if what replaces it in the sequence is not free at its address. */
  lemma UnlistFree(bs: seq<Block>, brk: int, i: nat, j: nat, mid: seq<Block>, frees: seq<int>, m: nat)
    requires Placed(bs, brk) && i <= j <= |bs| && FreeListed(frees, bs) && Distinct(FreeRing(frees)) && m < |frees|
    requires forall x :: IsFreeAddr(bs[i..j], x) && !IsFreeAddr(mid, x) <==> x == frees[m]
    requires forall x :: IsFreeAddr(mid, x) ==> IsFreeAddr(bs[i..j], x)
    ensures FreeListed(RemoveAt(frees, m), Splice(bs, i, j, mid))
  {
    var cs := Splice(bs, i, j, mid);
    forall a
      ensures a in RemoveAt(frees, m) <==> IsFreeAddr(cs, a)
    {
      SpliceFreeAddr(bs, brk, i, j, mid, a);
      RemovedMembers(frees, m, a);
      if IsFreeAddr(bs[i..j], a) {
        var n :| 0 <= n < j - i && bs[i..j][n].free && bs[i..j][n].addr == a;
        assert bs[i + n].addr == a;
      }
    }
  }

  lemma NotFreeAddr(bs: seq<Block>, brk: int, k: nat)
    requires Placed(bs, brk) && k < |bs| && !bs[k].free
    ensures !IsFreeAddr(bs, bs[k].addr) && bs[k].addr > 0
  {
    AddrsDiffer(bs, brk);
  }

  lemma RetagKeeps(typ: map<int, Kind>, size: map<int, int>, bs: seq<Block>, brk: int, k: nat, free: bool)
    requires Placed(bs, brk) && k < |bs| && TaggedBut(typ, size, bs, k)
    ensures var cs := Splice(bs, k, k + 1, [bs[k].(free := free)]);
      Placed(cs, brk) && Tagged(typ[bs[k].addr := if free then FreeBlock else UsedBlock], size, cs)
  {
    var b, mid := bs[k], [bs[k].(free := free)];
    assert WellSized(b) && bs[k..k + 1] == [b];
    forall x
      ensures Owns(mid, x) <==> Owns([b], x)
    {
      OwnsOne(b, x);
      OwnsOne(mid[0], x);
    }
    SplicePlaced(bs, brk, k, k + 1, mid);
    RetagSplice(typ, size, typ[b.addr := if free then FreeBlock else UsedBlock], size, bs, brk, k, k + 1, mid);
  }

  lemma SettledIsBut(typ: map<int, Kind>, size: map<int, int>, bs: seq<Block>, k: nat)
    requires Tagged(typ, size, bs) && k < |bs|
    ensures TaggedBut(typ, size, bs, k)
  {
    assert HeaderOf(typ, size, bs[k]);
    assert forall b :: b in bs[..k] || b in bs[k + 1..] ==> b in bs;
  }

  lemma UseFrees(bs: seq<Block>, brk: int, k: nat, frees: seq<int>, m: nat)
    requires Placed(bs, brk) && k < |bs| && bs[k].free && FreeListed(frees, bs)
    requires Distinct(FreeRing(frees)) && m < |frees| && frees[m] == bs[k].addr
    ensures FreeListed(RemoveAt(frees, m), Splice(bs, k, k + 1, [bs[k].(free := false)]))
  {
    var b, mid := bs[k], [bs[k].(free := false)];
    assert bs[k..k + 1] == [b];
    forall x
      ensures (IsFreeAddr([b], x) <==> b.addr == x) && !IsFreeAddr(mid, x)
    {
      FreeAddrOne(b, x);
      FreeAddrOne(mid[0], x);
    }
    UnlistFree(bs, brk, k, k + 1, mid, frees, m);
  }

  // ---- value lemmas for freeing

  lemma ReadLinks(next: map<int, int>, prev: map<int, int>, bs: seq<Block>, k: nat)
    requires IsRing(next, prev, MainRing(bs)) && k < |bs|
    ensures var a := bs[k].addr;
      && a in prev && prev[a] == (if k == 0 then HEAD else bs[k - 1].addr)
      && a in next && next[a] == (if k + 1 < |bs| then bs[k + 1].addr else HEAD)
  {
    RingLinks(next, prev, MainRing(bs), k + 1);
  }

  /** Joining blocks k and k + 1, at least one of them free, into one free block. */
  function Joined(bs: seq<Block>, k: nat): Block
    requires k + 1 < |bs|
  {
    Block(bs[k].addr, bs[k].size + bs[k + 1].size, true)
  }

  lemma JoinTags(typ: map<int, Kind>, size: map<int, int>, bs: seq<Block>, brk: int, k: nat)
    requires Placed(bs, brk) && k + 1 < |bs| && bs[k].free && bs[k].End() == bs[k + 1].addr
    requires TaggedBut(typ, size, bs, k + 1)
    ensures bs[k].addr in size && bs[k + 1].addr in size
    ensures size[bs[k].addr] == bs[k].size && size[bs[k + 1].addr] == bs[k + 1].size
    ensures Tagged(typ, size[bs[k].addr := bs[k].size + bs[k + 1].size], Splice(bs, k, k + 2, [Joined(bs, k)]))
  {
    assert WellSized(bs[k]) && WellSized(bs[k + 1]);
    assert bs[k] in bs[..k + 1] && HeaderOf(typ, size, bs[k]);
    assert forall b :: b in bs[..k] ==> b in bs[..k + 1];
    RetagSplice(typ, size, typ, size[bs[k].addr := bs[k].size + bs[k + 1].size], bs, brk, k, k + 2, [Joined(bs, k)]);
  }

  lemma JoinPlaced(bs: seq<Block>, brk: int, k: nat)
    requires Placed(bs, brk) && k + 1 < |bs| && bs[k].End() == bs[k + 1].addr
    ensures Placed(Splice(bs, k, k + 2, [Joined(bs, k)]), brk)
  {
    var p, q, mid := bs[k], bs[k + 1], [Joined(bs, k)];
    assert WellSized(p) && WellSized(q) && bs[k..k + 2] == [p] + [q];
    forall x
      ensures Owns(bs[k..k + 2], x) <==> Owns(mid, x)
    {
      OwnsConcat([p], [q], x);
      OwnsOne(p, x);
      OwnsOne(q, x);
      OwnsOne(mid[0], x);
    }
    SplicePlaced(bs, brk, k, k + 2, mid);
  }

  lemma JoinRing(bs: seq<Block>, k: nat)
    requires k + 1 < |bs|
    ensures MainRing(Splice(bs, k, k + 2, [Joined(bs, k)])) == RemoveAt(MainRing(bs), k + 2)
  {
    var r := MainRing(bs);
    SpliceRing(bs, k, k + 2, [Joined(bs, k)]);
    assert r[..k + 2] == r[..k + 1] + [bs[k].addr];
  }

  /** The left block stays on the free chain when a block in use is joined to it. */
  lemma JoinLeftFrees(bs: seq<Block>, brk: int, k: nat, frees: seq<int>)
    requires Placed(bs, brk) && k + 1 < |bs| && bs[k].free && !bs[k + 1].free && FreeListed(frees, bs)
    ensures FreeListed(frees, Splice(bs, k, k + 2, [Joined(bs, k)]))
  {
    forall x
      ensures IsFreeAddr(Splice(bs, k, k + 2, [Joined(bs, k)]), x) <==> IsFreeAddr(bs, x)
    {
      PairFreeAddr(bs, k, x);
      SpliceFreeAddr(bs, brk, k, k + 2, [Joined(bs, k)], x);
      FreeAddrOne(Joined(bs, k), x);
      assert x == bs[k].addr ==> IsFreeAddr(bs, x);
    }
  }

  lemma PairFreeAddr(bs: seq<Block>, k: nat, x: int)
    requires k + 1 < |bs|
    ensures IsFreeAddr(bs[k..k + 2], x) <==> (bs[k].free && x == bs[k].addr) || (bs[k + 1].free && x == bs[k + 1].addr)
  {
    assert bs[k..k + 2] == [bs[k]] + [bs[k + 1]];
    FreeAddrConcat([bs[k]], [bs[k + 1]], x);
    FreeAddrOne(bs[k], x);
    FreeAddrOne(bs[k + 1], x);
  }

  /** The right block leaves the free chain when it is joined to a free block. */
  lemma JoinRightFrees(bs: seq<Block>, brk: int, k: nat, frees: seq<int>, m: nat)
    requires Placed(bs, brk) && k + 1 < |bs| && bs[k].free && bs[k + 1].free && FreeListed(frees, bs)
    requires Distinct(FreeRing(frees)) && m < |frees| && frees[m] == bs[k + 1].addr
    ensures FreeListed(RemoveAt(frees, m), Splice(bs, k, k + 2, [Joined(bs, k)]))
  {
    AddrsDiffer(bs, brk);
    forall x
      ensures IsFreeAddr(bs[k..k + 2], x) <==> x == bs[k].addr || x == bs[k + 1].addr
      ensures IsFreeAddr([Joined(bs, k)], x) <==> x == bs[k].addr
    {
      PairFreeAddr(bs, k, x);
      FreeAddrOne(Joined(bs, k), x);
    }
    UnlistFree(bs, brk, k, k + 2, [Joined(bs, k)], frees, m);
  }

  /** All that joining block k with the block on its right asks of the chains and headers, and leaves there. */
  lemma JoinFacts(typ: map<int, Kind>, size: map<int, int>, nextFree: map<int, int>, prevFree: map<int, int>,
                  bs: seq<Block>, brk: int, k: nat, frees: seq<int>) returns (m: nat)
    requires Placed(bs, brk) && Tagged(typ, size, bs) && FreeListed(frees, bs)
    requires IsRing(nextFree, prevFree, FreeRing(frees)) && k + 1 < |bs| && Mergeable(bs, k)
    ensures var (ah, nah, r, fr) := (bs[k].addr, bs[k + 1].addr, MainRing(bs), FreeRing(frees));
      && ah in size && nah in size && size[ah] == bs[k].size && size[nah] == bs[k + 1].size
      && k + 2 < |r| && r[k + 2] == nah && MainRing(Merge(bs, k)) == RemoveAt(r, k + 2)
      && 0 < m < |fr| && m <= |frees| && frees[m - 1] == fr[m] == nah && FreeRing(RemoveAt(frees, m - 1)) == RemoveAt(fr, m)
      && Placed(Merge(bs, k), brk) && FreeListed(RemoveAt(frees, m - 1), Merge(bs, k))
      && Tagged(typ, size[ah := bs[k].size + bs[k + 1].size], Merge(bs, k))
  {
    hide Placed, IsRing, Tagged, TaggedBut, FreeListed, IsFreeAddr, Splice, Distinct, RemoveAt, MainRing, FreeRing;
    m := FreePosition(frees, bs, k + 1);
    RemovedRing(frees, m - 1);
    RingAt(bs, k + 1);
    RingDistinct(nextFree, prevFree, FreeRing(frees));
    JoinRightFrees(bs, brk, k, frees, m - 1);
    SettledIsBut(typ, size, bs, k + 1);
    JoinTags(typ, size, bs, brk, k);
    JoinPlaced(bs, brk, k);
    JoinRing(bs, k);
  }

  lemma PushFrees(bs: seq<Block>, brk: int, k: nat, frees: seq<int>)
    requires Placed(bs, brk) && k < |bs| && !bs[k].free && FreeListed(frees, bs)
    ensures bs[k].addr !in FreeRing(frees)
    ensures FreeListed([bs[k].addr] + frees, SetFree(bs, k))
    ensures FreeRing([bs[k].addr] + frees) == InsertAfter(FreeRing(frees), 0, bs[k].addr)
  {
    NotFreeAddr(bs, brk, k);
    var b, mid := bs[k], [bs[k].(free := true)];
    assert bs[k..k + 1] == [b];
    forall x
      ensures x in [b.addr] + frees <==> IsFreeAddr(SetFree(bs, k), x)
    {
      SpliceFreeAddr(bs, brk, k, k + 1, mid, x);
      FreeAddrOne(b, x);
      FreeAddrOne(mid[0], x);
    }
  }

  predicate JoinsLeft(bs: seq<Block>, k: nat)
    requires k < |bs|
  {
    k > 0 && bs[k - 1].free && bs[k - 1].End() == bs[k].addr
  }

  lemma ReleaseLeftIsJoin(bs: seq<Block>, k: nat)
    requires k < |bs|
    ensures ReleaseLeft(bs, k) ==
      if JoinsLeft(bs, k) then (Splice(bs, k - 1, k + 1, [Joined(bs, k - 1)]), k - 1) else (SetFree(bs, k), k)
    ensures var (cs, i) := ReleaseLeft(bs, k); cs[i].addr == if JoinsLeft(bs, k) then bs[k - 1].addr else bs[k].addr
  {
    var fs := SetFree(bs, k);
    assert fs[k] == bs[k].(free := true);
    if k > 0 {
      assert fs[k - 1] == bs[k - 1];
      assert fs[..k - 1] == bs[..k - 1] && fs[k + 1..] == bs[k + 1..];
    }
  }

  lemma ReleasedIsFree(bs: seq<Block>, brk: int, k: nat)
    requires Inv(bs, brk) && k < |bs| && !bs[k].free
    ensures var (cs, i) := Release(bs, k); cs[i].free
  {
    ReleaseKeepsInv(bs, brk, k);
  }

  lemma ReadFree(arena: Arena, i: nat)
    requires arena.Linked(-1) && i < |arena.blocks|
    ensures HeaderOf(arena.typ, arena.size, arena.blocks[i])
  {
    ReadHeader(arena.typ, arena.size, arena.blocks, i);
  }

  lemma TakeInHand(arena: Arena, k: nat)
    requires arena.Linked(-1) && k < |arena.blocks|
    ensures arena.Linked(k)
  {
    SettledIsBut(arena.typ, arena.size, arena.blocks, k);
  }

  lemma CarvedAddr(bs: seq<Block>, k: nat, need: int)
    requires k < |bs|
    ensures Carve(bs, k, need)[k].addr == bs[k].addr
  {
  }

  lemma BelowBreak(bs: seq<Block>, brk: int)
    requires Inv(bs, brk)
    ensures forall i :: 0 <= i < |bs| ==> bs[i].End() <= brk
  {
  }

  lemma DropLast(typ: map<int, Kind>, size: map<int, int>, bs: seq<Block>, brk: int, i: nat, frees: seq<int>, m: nat)
    requires Placed(bs, brk) && i < |bs| && bs[i].free && bs[i].End() == brk && Tagged(typ, size, bs)
    requires FreeListed(frees, bs) && Distinct(FreeRing(frees)) && m < |frees| && frees[m] == bs[i].addr
    ensures i == |bs| - 1 && Tagged(typ, size, bs[..i]) && FreeListed(RemoveAt(frees, m), bs[..i])
    ensures Placed(bs[..i], brk) && Placed(bs[..i], bs[i].addr)
    ensures MainRing(bs[..i]) == RemoveAt(MainRing(bs), i + 1)
  {
    assert WellSized(bs[|bs| - 1]) && bs[|bs| - 1].End() <= brk;
    assert bs == bs[..i] + [bs[i]];
    forall x
      ensures x in RemoveAt(frees, m) <==> IsFreeAddr(bs[..i], x)
    {
      FreeAddrConcat(bs[..i], [bs[i]], x);
      FreeAddrOne(bs[i], x);
      RemovedMembers(frees, m, x);
      AddrsDiffer(bs, brk);
    }
    AddrsConcat(bs[..i], [bs[i]]);
  }

  /** All that taking the last block off the chains asks of them, and leaves there. */
  lemma DropFacts(typ: map<int, Kind>, size: map<int, int>, nextFree: map<int, int>, prevFree: map<int, int>,
                  bs: seq<Block>, brk: int, i: nat, frees: seq<int>) returns (m: nat)
    requires Placed(bs, brk) && Tagged(typ, size, bs) && FreeListed(frees, bs)
    requires IsRing(nextFree, prevFree, FreeRing(frees)) && i < |bs| && bs[i].free && bs[i].End() == brk
    ensures var (ah, r, fr) := (bs[i].addr, MainRing(bs), FreeRing(frees));
      && i == |bs| - 1 && ah > 0 && Tagged(typ, size, bs[..i]) && Placed(bs[..i], brk) && Placed(bs[..i], ah)
      && i + 1 < |r| && r[i + 1] == ah && MainRing(bs[..i]) == RemoveAt(r, i + 1)
      && 0 < m < |fr| && m <= |frees| && frees[m - 1] == fr[m] == ah && FreeRing(RemoveAt(frees, m - 1)) == RemoveAt(fr, m)
      && FreeListed(RemoveAt(frees, m - 1), bs[..i])
  {
    hide Placed, IsRing, Tagged, FreeListed, RemoveAt, MainRing, FreeRing, Distinct;
    m := FreePosition(frees, bs, i);
    RingDistinct(nextFree, prevFree, FreeRing(frees));
    WellPlaced(bs, brk, i);
    DropLast(typ, size, bs, brk, i, frees, m - 1);
    RingAt(bs, i);
    RemovedRing(frees, m - 1);
  }

  lemma SettledAll(typ: map<int, Kind>, size: map<int, int>, bs: seq<Block>)
    requires TaggedBut(typ, size, bs, -1)
    ensures Tagged(typ, size, bs)
  {
  }

  lemma FreshPlaced(bs: seq<Block>, brk: int, b: Block)
    requires Placed(bs, brk) && WellSized(b) && b.End() <= brk && forall i :: 0 <= i < |bs| ==> bs[i].End() <= b.addr
    ensures Placed(bs + [b], brk) && forall i :: 0 <= i < |bs| ==> bs[i].addr < b.addr
  {
    var cs := bs + [b];
    forall i | 0 <= i < |bs| ensures bs[i].addr < b.addr {
      assert WellSized(bs[i]);
    }
    forall i | 0 <= i < |cs| ensures WellSized(cs[i]) && cs[i].End() <= brk {
      assert i < |bs| ==> cs[i] == bs[i];
    }
  }

  lemma FreshRing(bs: seq<Block>, b: Block)
    requires b.addr > 0 && forall i :: 0 <= i < |bs| ==> bs[i].addr < b.addr
    ensures b.addr !in MainRing(bs) && |MainRing(bs)| == |bs| + 1
    ensures MainRing(bs + [b]) == InsertAfter(MainRing(bs), |bs|, b.addr)
  {
    AddrsConcat(bs, [b]);
  }

  lemma FreshFrees(bs: seq<Block>, b: Block, frees: seq<int>)
    requires !b.free && FreeListed(frees, bs)
    ensures FreeListed(frees, bs + [b])
  {
    hide IsFreeAddr;
    forall a ensures IsFreeAddr(bs + [b], a) <==> IsFreeAddr(bs, a) {
      FreeAddrConcat(bs, [b], a);
      FreeAddrOne(b, a);
    }
  }

  lemma FreshTags(typ: map<int, Kind>, size: map<int, int>, bs: seq<Block>, b: Block)
    requires b.addr > 0 && (forall i :: 0 <= i < |bs| ==> bs[i].addr < b.addr) && Tagged(typ, size, bs)
    ensures TaggedBut(typ[b.addr := FreeBlock], size[b.addr := b.size], bs + [b], |bs|)
  {
    var cs := bs + [b];
    assert cs[..|bs|] == bs && cs[|bs| + 1..] == [];
    forall c | c in bs ensures HeaderOf(typ[b.addr := FreeBlock], size[b.addr := b.size], c) {
      var i :| 0 <= i < |bs| && bs[i] == c;
      assert HeaderOf(typ, size, c);
    }
  }

  lemma FreshBlock(typ: map<int, Kind>, size: map<int, int>, bs: seq<Block>, brk: int, fp: int, fsize: int, frees: seq<int>)
    requires Placed(bs, brk) && WellSized(Block(fp, fsize, false)) && fp + fsize <= brk
    requires forall i :: 0 <= i < |bs| ==> bs[i].End() <= fp
    requires Tagged(typ, size, bs) && FreeListed(frees, bs)
    ensures fp !in MainRing(bs) && |MainRing(bs)| == |bs| + 1 && forall i :: 0 <= i < |bs| ==> bs[i].addr < fp
    ensures var (cs, k) := (bs + [Block(fp, fsize, false)], |bs|);
      && Placed(cs, brk) && FreeListed(frees, cs)
      && TaggedBut(typ[fp := FreeBlock], size[fp := fsize], cs, k)
      && MainRing(cs) == InsertAfter(MainRing(bs), k, fp)
  {
    hide Placed, Tagged, TaggedBut, FreeListed, MainRing, InsertAfter;
    var b := Block(fp, fsize, false);
    FreshPlaced(bs, brk, b);
    FreshRing(bs, b);
    FreshFrees(bs, b, frees);
    FreshTags(typ, size, bs, b);
  }

  /** No block on this stretch of the free chain is large enough. */
  ghost predicate NoneFits(size: map<int, int>, nodes: seq<int>, need: int) {
    forall j :: 0 <= j < |nodes| ==> nodes[j] in size && size[nodes[j]] < need
  }

  /** Block fp is the first on the free chain that is large enough. */
  ghost predicate FirstFit(size: map<int, int>, frees: seq<int>, need: int, fp: int) {
    exists m :: 0 <= m < |frees| && frees[m] == fp && fp in size && size[fp] >= need && NoneFits(size, frees[..m], need)
  }

  lemma ReadHead(typ: map<int, Kind>, size: map<int, int>, bs: seq<Block>)
    requires Tagged(typ, size, bs)
    ensures HEAD in typ && typ[HEAD] == HeadNode
  {
  }

  /** What the header at position j of the main chain tells. */
  lemma RingNode(typ: map<int, Kind>, size: map<int, int>, bs: seq<Block>, j: nat)
    requires Tagged(typ, size, bs) && j <= |bs|
    ensures |MainRing(bs)| == |bs| + 1 && MainRing(bs)[j] == (if j == 0 then HEAD else bs[j - 1].addr)
    ensures MainRing(bs)[j] in typ && (typ[MainRing(bs)[j]] == HeadNode <==> j == 0)
  {
    if j > 0 {
      assert HeaderOf(typ, size, bs[j - 1]);
    }
  }

  lemma FreeNode(typ: map<int, Kind>, size: map<int, int>, frees: seq<int>, bs: seq<Block>, m: nat) returns (k: nat)
    requires Tagged(typ, size, bs) && FreeListed(frees, bs) && m < |frees|
    ensures k < |bs| && bs[k].free && bs[k].addr == frees[m] && HeaderOf(typ, size, bs[k])
  {
    assert frees[m] in frees;
    assert IsFreeAddr(bs, frees[m]);
    k :| 0 <= k < |bs| && bs[k].free && bs[k].addr == frees[m];
  }

  /** _KLIBC_SBRK_ALIGNMENT. */
  const SBRK_ALIGNMENT: int := 32

  lemma PlacedHigher(bs: seq<Block>, brk: int, brk': int)
    requires Placed(bs, brk) && brk <= brk'
    ensures Placed(bs, brk')
  {
  }

  lemma ReadNext(typ: map<int, Kind>, size: map<int, int>, bs: seq<Block>, k: nat)
    requires Tagged(typ, size, bs) && k < |bs|
    ensures HEAD in typ && typ[HEAD] == HeadNode
    ensures k + 1 < |bs| ==> HeaderOf(typ, size, bs[k + 1])
  {
  }

  /** Joining to the left does not change which block comes next. */
  lemma LeftKeepsNext(bs: seq<Block>, k: nat)
    requires k < |bs|
    ensures var (cs, i) := ReleaseLeft(bs, k);
      && cs[i].free && |cs| - i == |bs| - k && (k + 1 < |bs| ==> cs[i + 1] == bs[k + 1])
  {
    ReleaseLeftIsJoin(bs, k);
  }

  lemma ReadNeighbour(typ: map<int, Kind>, size: map<int, int>, bs: seq<Block>, k: nat)
    requires TaggedBut(typ, size, bs, k) && k < |bs|
    ensures HEAD in typ && typ[HEAD] == HeadNode && HEAD in size
    ensures k > 0 ==> HeaderOf(typ, size, bs[k - 1])
  {
    if k > 0 {
      assert bs[k - 1] in bs[..k];
    }
  }

  /** The arena of malloc.c: header fields by address, the break, and the blocks they stand for. */
  class Arena {
    var typ: map<int, Kind>
    var size: map<int, int>
    var next: map<int, int>
    var prev: map<int, int>
    var nextFree: map<int, int>
    var prevFree: map<int, int>
    /** __current_brk, maintained by sbrk and brk. */
    var brk: int
    ghost var blocks: seq<Block>
    ghost var frees: seq<int>
    ghost var held: iset<int>

    /** Both chains and all headers agree with the block sequence; block `hand` has no settled type. */
    ghost predicate Linked(hand: int)
      reads `typ, `size, `next, `prev, `nextFree, `prevFree, `brk, `blocks, `frees
    {
      && Placed(blocks, brk)
      && IsRing(next, prev, MainRing(blocks))
      && IsRing(nextFree, prevFree, FreeRing(frees))
      && FreeListed(frees, blocks)
      && TaggedBut(typ, size, blocks, hand)
    }

    ghost function View(): State
      reads this
    {
      State(blocks, brk, held)
    }

    ghost predicate Valid()
      reads this
    {
      Linked(-1) && Heap.Valid(View()) && brk > 0
    }

    /** The arena before the first call; `initialBrk` is the break the kernel reports. */
    constructor (initialBrk: int)
      requires initialBrk > 0
      ensures Valid() && View() == Empty(initialBrk)
    {
      typ, size := map[HEAD := HeadNode], map[HEAD := 0];
      next, prev := map[HEAD := HEAD], map[HEAD := HEAD];
      nextFree, prevFree := map[HEAD := HEAD], map[HEAD := HEAD];
      brk, blocks, frees, held := initialBrk, [], [], iset{};
    }

    // ---- link surgery

    /** Insert a block behind `ah` in the main chain. */
    method LinkBehind(ah: int, node: int, ghost r: seq<int>, ghost i: nat)
      requires IsRing(next, prev, r) && i < |r| && r[i] == ah && node !in r
      modifies this`next, this`prev
      ensures IsRing(next, prev, InsertAfter(r, i, node))
    {
      RingLinks(next, prev, r, i);
      var na := next[ah];
      ghost var j := if i + 1 < |r| then i + 1 else 0;
      RingLinks(next, prev, r, j);
      prev := prev[node := ah];
      next := next[node := na];
      prev := prev[na := node];
      next := next[ah := node];
      RingInsert(old(next), old(prev), r, i, node, next, prev);
    }

    method RemoveFromMainChain(ah: int, ghost r: seq<int>, ghost i: nat)
      requires IsRing(next, prev, r) && 0 < i < |r| && r[i] == ah
      modifies this`next, this`prev
      ensures IsRing(next, prev, RemoveAt(r, i))
    {
      RingLinks(next, prev, r, i);
      var ap, an := prev[ah], next[ah];
      next := next[ap := an];
      prev := prev[an := ap];
      RingRemove(old(next), old(prev), r, i, next, prev);
    }

    method RemoveFromFreeChain(ah: int, ghost r: seq<int>, ghost i: nat)
      requires IsRing(nextFree, prevFree, r) && 0 < i < |r| && r[i] == ah
      modifies this`nextFree, this`prevFree
      ensures IsRing(nextFree, prevFree, RemoveAt(r, i))
    {
      RingLinks(nextFree, prevFree, r, i);
      var ap, an := prevFree[ah], nextFree[ah];
      nextFree := nextFree[ap := an];
      prevFree := prevFree[an := ap];
      RingRemove(old(nextFree), old(prevFree), r, i, nextFree, prevFree);
    }

    /** Put `node` in the place of `ah` on the free chain. */
    method ReplaceOnFreeChain(ah: int, node: int, ghost r: seq<int>, ghost i: nat)
      requires IsRing(nextFree, prevFree, r) && 0 < i < |r| && r[i] == ah && node !in r
      modifies this`nextFree, this`prevFree
      ensures IsRing(nextFree, prevFree, r[i := node])
    {
      RingLinks(nextFree, prevFree, r, i);
      var an, ap := nextFree[ah], prevFree[ah];
      nextFree := nextFree[node := an];
      prevFree := prevFree[node := ap];
      prevFree := prevFree[an := node];
      nextFree := nextFree[ap := node];
      RingReplace(old(nextFree), old(prevFree), r, i, node, nextFree, prevFree);
    }

    /** Put a block at the front of the free chain. */
    method PushOnFreeChain(ah: int, ghost r: seq<int>)
      requires IsRing(nextFree, prevFree, r) && r[0] == HEAD && ah !in r
      modifies this`nextFree, this`prevFree
      ensures IsRing(nextFree, prevFree, InsertAfter(r, 0, ah))
    {
      RingLinks(nextFree, prevFree, r, 0);
      nextFree := nextFree[ah := nextFree[HEAD]];
      prevFree := prevFree[ah := HEAD];
      nextFree := nextFree[HEAD := ah];
      prevFree := prevFree[nextFree[ah] := ah];
      RingInsert(old(nextFree), old(prevFree), r, 0, ah, nextFree, prevFree);
    }

    // ---- allocation

    /** Split branch of __malloc_from_block. */
    method SplitBlock(fp: int, need: int, ghost k: nat)
      requires Linked(-1) && k < |blocks| && fp == blocks[k].addr && blocks[k].free
      requires need % HEADER == 0 && 2 * HEADER <= need && Splits(blocks[k], need)
      modifies this`typ, this`size, this`next, this`prev, this`nextFree, this`prevFree, this`blocks, this`frees
      ensures Linked(-1) && blocks == Carve(old(blocks), k, need)
      ensures frees == ChainCarved(old(blocks), k, need, old(frees))
    {
      hide Placed, IsRing, Tagged, FreeListed, Carve, InsertAfter, MainRing, FreeRing, Splits, IndexOf, Without;
      ghost var bs := blocks;
      ghost var m := SplitFacts(typ, size, nextFree, prevFree, bs, brk, k, need, frees);
      FreesAt(nextFree, prevFree, frees, m - 1, fp);
      var fsize, nfp := size[fp], fp + need;
      typ := typ[nfp := FreeBlock];
      size := size[nfp := fsize - need];
      typ := typ[fp := UsedBlock];
      size := size[fp := need];
      LinkBehind(fp, nfp, MainRing(bs), k + 1);
      ReplaceOnFreeChain(fp, nfp, FreeRing(frees), m);
      frees := frees[m - 1 := nfp];
      blocks := Carve(bs, k, need);
    }

    /** The other branch: use the whole block. */
    method UseWholeBlock(fp: int, ghost k: nat)
      requires Linked(-1) && k < |blocks| && fp == blocks[k].addr && blocks[k].free
      modifies this`typ, this`size, this`next, this`prev, this`nextFree, this`prevFree, this`blocks, this`frees
      ensures Linked(-1) && blocks == Splice(old(blocks), k, k + 1, [old(blocks)[k].(free := false)])
      ensures fp in old(frees) && frees == Without(old(frees), fp)
    {
      hide Placed, IsRing, Tagged, FreeListed, IsFreeAddr, Splice, IndexOf, Without, RemoveAt;
      ghost var bs, mid := blocks, [blocks[k].(free := false)];
      ghost var m := FreePosition(frees, blocks, k);
      RingDistinct(nextFree, prevFree, FreeRing(frees));
      FreesAt(nextFree, prevFree, frees, m - 1, fp);
      RemovedRing(frees, m - 1);
      RetagRing(bs, k, false);
      SettledIsBut(typ, size, bs, k);
      RetagKeeps(typ, size, bs, brk, k, false);
      UseFrees(bs, brk, k, frees, m - 1);
      typ := typ[fp := UsedBlock];
      RemoveFromFreeChain(fp, FreeRing(frees), m);
      frees := RemoveAt(frees, m - 1);
      blocks := Splice(bs, k, k + 1, mid);
    }

    /** __malloc_from_block. */
    method MallocFromBlock(fp: int, need: int, ghost k: nat) returns (ptr: int)
      requires Linked(-1) && k < |blocks| && fp == blocks[k].addr && blocks[k].free
      requires need % HEADER == 0 && 2 * HEADER <= need <= blocks[k].size
      modifies this`typ, this`size, this`next, this`prev, this`nextFree, this`prevFree, this`blocks, this`frees
      ensures Linked(-1) && blocks == Carve(old(blocks), k, need) && ptr == fp + HEADER
      ensures frees == ChainCarved(old(blocks), k, need, old(frees))
    {
      ReadHeader(typ, size, blocks, k);
      hide Linked;
      if size[fp] >= need + 2 * HEADER {
        SplitBlock(fp, need, k);
      } else {
        UseWholeBlock(fp, k);
      }
      ptr := fp + HEADER;
    }

    // ---- freeing

    method JoinLeft(pah: int, ah: int, ghost k: nat)
      requires Linked(k) && 0 < k < |blocks| && ah == blocks[k].addr && pah == blocks[k - 1].addr
      requires !blocks[k].free && blocks[k - 1].free && blocks[k - 1].End() == blocks[k].addr
      modifies this`typ, this`size, this`next, this`prev, this`nextFree, this`prevFree, this`blocks, this`frees
      ensures Linked(-1) && blocks == Splice(old(blocks), k - 1, k + 1, [Joined(old(blocks), k - 1)])
      ensures frees == old(frees)
    {
      hide Placed, IsRing, Tagged, FreeListed, IsFreeAddr, Splice;
      ghost var bs := blocks;
      JoinTags(typ, size, bs, brk, k - 1);
      JoinPlaced(bs, brk, k - 1);
      JoinRing(bs, k - 1);
      JoinLeftFrees(bs, brk, k - 1, frees);
      size := size[pah := size[pah] + size[ah]];
      RemoveFromMainChain(ah, MainRing(bs), k + 1);
      blocks := Splice(bs, k - 1, k + 1, [Joined(bs, k - 1)]);
    }

    method MarkFree(ah: int, ghost k: nat)
      requires Linked(k) && k < |blocks| && ah == blocks[k].addr && !blocks[k].free
      modifies this`typ, this`size, this`next, this`prev, this`nextFree, this`prevFree, this`blocks, this`frees
      ensures Linked(-1) && blocks == SetFree(old(blocks), k)
      ensures frees == [ah] + old(frees)
    {
      hide Placed, IsRing, Tagged, FreeListed, IsFreeAddr, Splice;
      ghost var bs := blocks;
      RetagRing(bs, k, true);
      RetagKeeps(typ, size, bs, brk, k, true);
      PushFrees(bs, brk, k, frees);
      typ := typ[ah := FreeBlock];
      PushOnFreeChain(ah, FreeRing(frees));
      frees := [ah] + frees;
      blocks := SetFree(bs, k);
    }

    method JoinRight(ah: int, nah: int, ghost k: nat)
      requires Linked(-1) && k + 1 < |blocks| && ah == blocks[k].addr && nah == blocks[k + 1].addr
      requires Mergeable(blocks, k)
      modifies this`typ, this`size, this`next, this`prev, this`nextFree, this`prevFree, this`blocks, this`frees
      ensures Linked(-1) && blocks == Merge(old(blocks), k) && frees == ChainWithout(old(frees), nah)
    {
      hide Placed, IsRing, Tagged, FreeListed, Merge, RemoveAt, MainRing, FreeRing, Mergeable, Without;
      ghost var bs := blocks;
      ghost var m := JoinFacts(typ, size, nextFree, prevFree, bs, brk, k, frees);
      FreesAt(nextFree, prevFree, frees, m - 1, nah);
      size := size[ah := size[ah] + size[nah]];
      RemoveFromFreeChain(nah, FreeRing(frees), m);
      RemoveFromMainChain(nah, MainRing(bs), k + 2);
      frees := RemoveAt(frees, m - 1);
      blocks := Merge(bs, k);
    }

    /** First half of __free_block: join to the left or enter the free chain. */
    method FreeLeft(ah: int, ghost k: nat) returns (r: int)
      requires Linked(k) && k < |blocks| && ah == blocks[k].addr && !blocks[k].free
      modifies this`typ, this`size, this`next, this`prev, this`nextFree, this`prevFree, this`blocks, this`frees
      ensures Linked(-1)
      ensures var (cs, i) := ReleaseLeft(old(blocks), k); blocks == cs && r == cs[i].addr
      ensures frees == if JoinsLeft(old(blocks), k) then old(frees) else [ah] + old(frees)
    {
      ReadLinks(next, prev, blocks, k);
      var pah := prev[ah];
      ReadNeighbour(typ, size, blocks, k);
      ReleaseLeftIsJoin(blocks, k);
      hide Linked, ReleaseLeft, Splice, SetFree;
      if typ[pah] == FreeBlock && pah + size[pah] == ah {
        JoinLeft(pah, ah, k);
        r := pah;
      } else {
        MarkFree(ah, k);
        r := ah;
      }
    }

    /** Second half of __free_block: join with the block on the right. */
    method FreeRight(ah: int, nah: int, ghost i: nat)
      requires Linked(-1) && i < |blocks| && ah == blocks[i].addr && blocks[i].free
      requires nah == if i + 1 < |blocks| then blocks[i + 1].addr else HEAD
      modifies this`typ, this`size, this`next, this`prev, this`nextFree, this`prevFree, this`blocks, this`frees
      ensures Linked(-1)
      ensures blocks == if Mergeable(old(blocks), i) then Merge(old(blocks), i) else old(blocks)
      ensures frees == if Mergeable(old(blocks), i) then ChainWithout(old(frees), nah) else old(frees)
    {
      ReadHeader(typ, size, blocks, i);
      ReadNext(typ, size, blocks, i);
      hide Linked, Merge;
      if typ[nah] == FreeBlock && ah + size[ah] == nah {
        JoinRight(ah, nah, i);
      }
    }

    /** __free_block: free block k and join it with its free neighbours. */
    method FreeArenaBlock(ah: int, ghost k: nat) returns (r: int)
      requires Linked(k) && k < |blocks| && ah == blocks[k].addr && !blocks[k].free
      modifies this`typ, this`size, this`next, this`prev, this`nextFree, this`prevFree, this`blocks, this`frees
      ensures Linked(-1)
      ensures var (cs, i) := Release(old(blocks), k); blocks == cs && r == cs[i].addr
      ensures frees == ChainReleased(old(blocks), k, old(frees))
    {
      hide Placed, IsRing, Tagged, FreeListed, ChainWithout, JoinsLeft;
      ReadLinks(next, prev, blocks, k);
      var nah := next[ah];
      LeftKeepsNext(blocks, k);
      hide Linked, ReleaseLeft, Merge, Mergeable;
      r := FreeLeft(ah, k);
      ghost var i := ReleaseLeft(old(blocks), k).1;
      FreeRight(r, nah, i);
    }

    // ---- malloc and free

    /** sbrk on behalf of malloc; `answer` is what the system call returns. */
    method Sbrk(increment: int, answer: int) returns (start: Option<int>)
      requires increment > 0 && brk > 0 && Linked(-1)
      modifies this`brk
      ensures Linked(-1)
      ensures start.Some? <==> answer >= AlignUp(old(brk)) + increment
      ensures start.None? ==> brk == old(brk)
      ensures start.Some? ==> start.value == AlignUp(old(brk)) && brk == answer
      ensures start.Some? ==> SbrkGives(old(brk), start.value, increment, brk)
    {
      hide Placed, IsRing, Tagged, FreeListed, AlignUp;
      AlignUpMeans(brk);
      var first := AlignUp(brk);
      var end := first + increment;
      if answer == -1 {
        return None;
      } else if answer < end {
        return None;
      }
      PlacedHigher(blocks, brk, answer);
      brk := answer;
      start := Some(first);
    }

    /** The first-fit search along the free chain. */
    method FindFit(need: int) returns (r: Option<int>)
      requires Linked(-1)
      ensures r.None? ==> NoFit(blocks, need)
      ensures r.Some? ==> exists k :: 0 <= k < |blocks| && blocks[k].free && blocks[k].addr == r.value && blocks[k].size >= need
      ensures r.Some? ==> FirstFit(size, frees, need, r.value)
    {
      hide Placed, IsRing, Tagged, FreeListed, IsFreeAddr;
      RingLinks(nextFree, prevFree, FreeRing(frees), 0);
      var fp := nextFree[HEAD];
      ghost var m := 0;
      ReadHead(typ, size, blocks);
      if |frees| > 0 {
        ghost var k := FreeNode(typ, size, frees, blocks, 0);
      }
      while typ[fp] != HeadNode
        invariant 0 <= m <= |frees| && fp == (if m < |frees| then frees[m] else HEAD) && fp in typ
        invariant forall j :: 0 <= j < m ==> frees[j] in size && size[frees[j]] < need
        invariant m < |frees| ==> typ[fp] != HeadNode
        decreases |frees| - m
      {
        ghost var k := FreeNode(typ, size, frees, blocks, m);
        if size[fp] >= need {
          assert NoneFits(size, frees[..m], need);
          return Some(fp);
        }
        RingLinks(nextFree, prevFree, FreeRing(frees), m + 1);
        fp := nextFree[fp];
        m := m + 1;
        if m < |frees| {
          k := FreeNode(typ, size, frees, blocks, m);
        }
      }
      forall i | 0 <= i < |blocks| && blocks[i].free
        ensures blocks[i].size < need
      {
        var j := FreePosition(frees, blocks, i);
        ReadHeader(typ, size, blocks, i);
        assert frees[j - 1] == blocks[i].addr;
      }
      return None;
    }

    /** Search the main chain backwards for the block that should precede fp. */
    method FindPlace(fp: int) returns (pah: int, ghost j: nat)
      requires Linked(-1)
      ensures j <= |blocks| && pah == MainRing(blocks)[j]
      ensures j > 0 ==> blocks[j - 1].addr < fp
      ensures forall i :: j <= i < |blocks| ==> blocks[i].addr >= fp
    {
      hide Placed, IsRing, Tagged, FreeListed, MainRing;
      RingNode(typ, size, blocks, 0);
      RingLinks(next, prev, MainRing(blocks), 0);
      pah, j := prev[HEAD], |blocks|;
      RingNode(typ, size, blocks, j);
      while typ[pah] != HeadNode
        invariant j <= |blocks| && |MainRing(blocks)| == |blocks| + 1 && pah == MainRing(blocks)[j] && pah in typ
        invariant j > 0 ==> pah == blocks[j - 1].addr
        invariant typ[pah] == HeadNode <==> j == 0
        invariant forall i :: j <= i < |blocks| ==> blocks[i].addr >= fp
        decreases j
      {
        if pah < fp {
          break;
        }
        RingLinks(next, prev, MainRing(blocks), j);
        pah, j := prev[pah], j - 1;
        RingNode(typ, size, blocks, j);
      }
    }

    /** Insert a block fresh from the kernel into the main chain. */
    method InsertFresh(fp: int, fsize: int)
      requires Linked(-1) && WellSized(Block(fp, fsize, false)) && fp + fsize <= brk
      requires forall i :: 0 <= i < |blocks| ==> blocks[i].End() <= fp
      modifies this`typ, this`size, this`next, this`prev, this`blocks
      ensures blocks == old(blocks) + [Block(fp, fsize, false)] && Linked(|blocks| - 1)
    {
      hide Placed, IsRing, Tagged, TaggedBut, FreeListed, InsertAfter, MainRing;
      ghost var bs := blocks;
      SettledAll(typ, size, bs);
      FreshBlock(typ, size, bs, brk, fp, fsize, frees);
      var pah, j := FindPlace(fp);
      assert |bs| > 0 ==> bs[|bs| - 1].addr < fp;
      typ := typ[fp := FreeBlock];
      size := size[fp := fsize];
      LinkBehind(pah, fp, MainRing(bs), j);
      blocks := bs + [Block(fp, fsize, false)];
    }

    /** The part of malloc that turns to the kernel. */
    method Grow(need: int, answer: int) returns (ptr: Option<int>, ghost op: Op)
      requires Valid() && NoFit(blocks, need) && need % HEADER == 0 && need >= 2 * HEADER
      modifies this
      ensures Valid() && Next(old(View()), op, View())
      ensures ptr.None? <==> answer < AlignUp(old(brk)) + ChunkUp(need)
      ensures op == if ptr.None? then Fail(need) else Op.Grow(need, AlignUp(old(brk)), answer)
      ensures ptr.Some? ==> ptr.value == Handed(old(View()), op).addr + HEADER
      ensures frees == ChainAfter(old(View()), op, old(frees))
    {
      hide Linked, Inv, Owns, InUse, Carve, Release, NoFit, ChunkUp, AlignUp, ChainCarved, ChainReleased, Handed;
      ghost var s := View();
      var fsize := ChunkUp(need);
      ChunkIsAligned(need);
      var start := Sbrk(fsize, answer);
      if start.None? {
        return None, Fail(need);
      }
      var fp := start.value;
      op := Op.Grow(need, fp, brk);
      ghost var b := Block(fp, fsize, false);
      AppendKeepsInv(s.blocks, s.brk, b, brk);
      ReleaseKeepsInv(s.blocks + [b], brk, |s.blocks|);
      ghost var (bs, k) := Release(s.blocks + [b], |s.blocks|);
      CarvedAddr(bs, k, need);
      BelowBreak(s.blocks, s.brk);
      InsertFresh(fp, fsize);
      held := held + Range(fp, fp + fsize);
      fp := FreeArenaBlock(fp, |s.blocks|);
      var p := MallocFromBlock(fp, need, k);
      ptr := Some(p);
      HandedByGrow(s, op, bs, k);
      GrowKeepsValid(s, op, View());
    }

    /** malloc.  `answer` is what the system call behind sbrk would return. */
    method Allocate(request: nat, answer: int) returns (ptr: Option<int>, ghost op: Op)
      requires Valid()
      modifies this
      ensures Valid()
      ensures request == 0 ==> ptr.None? && View() == old(View()) && frees == old(frees)
      ensures request > 0 ==> Next(old(View()), op, View())
      ensures request > 0 ==> (ptr.None? <==>
        NoFit(old(blocks), Need(request)) && answer < AlignUp(old(brk)) + ChunkUp(Need(request)))
      ensures request > 0 && ptr.None? ==> op == Fail(Need(request))
      ensures request > 0 && ptr.Some? ==>
        (op.Fit? || op.Grow?) && op.need == Need(request) && ptr.value == Handed(old(View()), op).addr + HEADER
      ensures request > 0 && op.Grow? ==> op.start == AlignUp(old(brk)) && op.newBrk == answer
      ensures request > 0 ==> frees == ChainAfter(old(View()), op, old(frees))
      ensures request > 0 && ptr.Some? && op.Fit? ==>
        FirstFit(old(size), old(frees), Need(request), ptr.value - HEADER)
    {
      hide Linked, Inv, Owns, InUse, Carve, FirstFit, ChainCarved, ChunkUp, AlignUp, Need;
      op := Fail(0);
      if request == 0 {
        return None, op;
      }
      var need := Need(request);
      NeedIsAligned(request);
      var fit := FindFit(need);
      if fit.None? {
        ptr, op := Grow(need, answer);
        return;
      }
      ghost var k: nat :| k < |blocks| && blocks[k].free && blocks[k].addr == fit.value && blocks[k].size >= need;
      op := Fit(need, k);
      CarvedAddr(blocks, k, need);
      var p := MallocFromBlock(fit.value, need, k);
      ptr := Some(p);
      NextKeepsValid(old(View()), op, View());
    }

    /** Take the last block off both chains. */
    method RemoveLast(ah: int, ghost i: nat)
      requires Linked(-1) && i < |blocks| && ah == blocks[i].addr && blocks[i].free && blocks[i].End() == brk
      modifies this`next, this`prev, this`nextFree, this`prevFree, this`blocks, this`frees
      ensures Linked(-1) && i == |old(blocks)| - 1 && blocks == old(blocks)[..i]
      ensures ah > 0 && Placed(blocks, ah) && frees == ChainWithout(old(frees), ah)
    {
      hide Placed, IsRing, Tagged, FreeListed, RemoveAt, MainRing, FreeRing, Without;
      ghost var bs := blocks;
      ghost var m := DropFacts(typ, size, nextFree, prevFree, bs, brk, i, frees);
      FreesAt(nextFree, prevFree, frees, m - 1, ah);
      RemoveFromFreeChain(ah, FreeRing(frees), m);
      RemoveFromMainChain(ah, MainRing(bs), i + 1);
      frees := RemoveAt(frees, m - 1);
      blocks := bs[..i];
    }

    /** Take the last block out of the arena and lower the break, if the system call agrees. */
    method HandBack(ah: int, answer: int, ghost i: nat)
      requires Linked(-1) && i < |blocks| && ah == blocks[i].addr && blocks[i].free && blocks[i].End() == brk
      modifies this`next, this`prev, this`nextFree, this`prevFree, this`blocks, this`frees, this`brk
      ensures Linked(-1) && i == |old(blocks)| - 1 && blocks == old(blocks)[..i]
      ensures brk == (if answer == ah then ah else old(brk)) && ah > 0 && frees == ChainWithout(old(frees), ah)
    {
      hide Placed, IsRing, Tagged, FreeListed, ChainWithout;
      RemoveLast(ah, i);
      if answer == ah {
        brk := answer;
      }
    }

    /** The tail of free: hand a whole chunk at the break back to the system. */
    method ReturnToSystem(ah: int, answer: int, ghost i: nat)
      requires Linked(-1) && i < |blocks| && ah == blocks[i].addr && blocks[i].free && brk > 0
      modifies this
      ensures Linked(-1) && brk > 0
      ensures if HandsBack(old(blocks)[i], old(brk)) then
          && blocks == old(blocks)[..i] && ah < old(brk) && brk == (if answer == ah then ah else old(brk))
          && held == (if answer == ah then old(held) - Range(old(blocks)[i].addr, old(blocks)[i].End()) else old(held))
          && frees == ChainWithout(old(frees), ah)
        else
          View() == old(View()) && frees == old(frees)
    {
      hide Linked, ChainWithout;
      ReadFree(this, i);
      if size[ah] >= CHUNK && ah + size[ah] == brk {
        if answer == ah {
          held := held - Range(blocks[i].addr, blocks[i].End());
        }
        HandBack(ah, answer, i);
      }
    }

    /** free.  A null pointer is ignored; `answer` is what the system call behind brk would return. */
    method Deallocate(ptr: int, answer: int, ghost k: nat)
      requires Valid()
      requires ptr != 0 ==> k < |blocks| && !blocks[k].free && ptr == blocks[k].addr + HEADER
      modifies this
      ensures Valid()
      ensures ptr == 0 ==> View() == old(View()) && frees == old(frees)
      ensures ptr != 0 ==> Next(old(View()), Op.Free(k, brk), View())
      ensures ptr != 0 ==> frees == ChainAfter(old(View()), Op.Free(k, brk), old(frees))
      ensures ptr != 0 ==>
        var (cs, i) := Release(old(blocks), k);
        brk == if HandsBack(cs[i], old(brk)) && answer == cs[i].addr then answer else old(brk)
    {
      hide Linked, Inv, Owns, InUse, Release, HandsBack, Range, ChainWithout, ChainReleased;
      if ptr == 0 {
        return;
      }
      ghost var s := View();
      TakeInHand(this, k);
      ReleasedIsFree(blocks, brk, k);
      var ah := FreeArenaBlock(ptr - HEADER, k);
      ReturnToSystem(ah, answer, Release(s.blocks, k).1);
      FreeKeepsValid(s, Op.Free(k, brk), View());
    }
  }
}
