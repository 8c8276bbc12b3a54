/** The heap of usr/klibc/malloc.c as a sequence of blocks in address order, and its state machine.

    Module Malloc proves that the linked arena takes exactly these steps. */
module Heap {

  /** sizeof(struct arena_header), also the alignment unit. */
  const HEADER: int := 16
  /** _KLIBC_MALLOC_CHUNK_SIZE. */
  const CHUNK: int := 65536

  datatype Block = Block(addr: int, size: int, free: bool) {
    function End(): int { addr + size }
    ghost predicate Has(x: int) { addr <= x < End() }
  }

  /** Request plus header, rounded up to the alignment unit. */
  function Need(request: nat): int { (request + 2 * HEADER - 1) / HEADER * HEADER }

  /** What is asked of the kernel for a given need: whole chunks. */
  function ChunkUp(need: int): int { (need + CHUNK - 1) / CHUNK * CHUNK }

  ghost predicate WellSized(b: Block) {
    b.addr > 0 && b.addr % HEADER == 0 && b.size % HEADER == 0 && b.size >= 2 * HEADER
  }

  /** Blocks are aligned, large enough for a free header, in address order, without overlap, below the
      break; and no two free blocks touch. */
  ghost predicate Inv(bs: seq<Block>, brk: int) {
    && Placed(bs, brk)
    && forall i :: 0 <= i < |bs| - 1 ==> !Mergeable(bs, i)
  }

  ghost predicate Placed(bs: seq<Block>, brk: int) {
    && (forall i :: 0 <= i < |bs| ==> WellSized(bs[i]) && bs[i].End() <= brk)
    && (forall i, j :: 0 <= i < j < |bs| ==> bs[i].End() <= bs[j].addr)
  }

  ghost predicate Owns(bs: seq<Block>, x: int) { exists i :: 0 <= i < |bs| && bs[i].Has(x) }

  ghost predicate OwnsFree(bs: seq<Block>, x: int) { exists i :: 0 <= i < |bs| && bs[i].free && bs[i].Has(x) }

  ghost function InUse(bs: seq<Block>): set<Block> { set i | 0 <= i < |bs| && !bs[i].free :: bs[i] }

  // ---- operations on the block sequence

  /** Replace the blocks i..j by others. */
  function Splice(bs: seq<Block>, i: nat, j: nat, mid: seq<Block>): seq<Block>
    requires i <= j <= |bs|
  {
    bs[..i] + mid + bs[j..]
  }

  predicate Splits(b: Block, need: int) { b.size >= need + 2 * HEADER }

  /** __malloc_from_block: use the front of block k, leave the rest free if it can stand alone. */
  function Carve(bs: seq<Block>, k: nat, need: int): seq<Block>
    requires k < |bs|
  {
    var b := bs[k];
    if Splits(b, need) then
      Splice(bs, k, k + 1, [Block(b.addr, need, false), Block(b.addr + need, b.size - need, true)])
    else
      Splice(bs, k, k + 1, [b.(free := false)])
  }

  predicate Mergeable(bs: seq<Block>, k: int) {
    0 <= k < |bs| - 1 && bs[k].End() == bs[k + 1].addr && bs[k].free && bs[k + 1].free
  }

  function Merge(bs: seq<Block>, k: nat): seq<Block>
    requires k + 1 < |bs|
  {
    Splice(bs, k, k + 2, [Block(bs[k].addr, bs[k].size + bs[k + 1].size, true)])
  }

  function SetFree(bs: seq<Block>, k: nat): seq<Block>
    requires k < |bs|
  {
    Splice(bs, k, k + 1, [bs[k].(free := true)])
  }

  /** First half of __free_block: free block k and join it to the block on its left. */
  function ReleaseLeft(bs: seq<Block>, k: nat): (r: (seq<Block>, nat))
    requires k < |bs|
    ensures r.1 < |r.0|
  {
    var cs := SetFree(bs, k);
    if k > 0 && Mergeable(cs, k - 1) then (Merge(cs, k - 1), k - 1) else (cs, k)
  }

  /** __free_block: the blocks afterwards and the position of the block that contains block k. */
  function Release(bs: seq<Block>, k: nat): (r: (seq<Block>, nat))
    requires k < |bs|
    ensures r.1 < |r.0|
  {
    var (cs, i) := ReleaseLeft(bs, k);
    (if Mergeable(cs, i) then Merge(cs, i) else cs, i)
  }

  // ---- the state machine

  /** `held` is the memory obtained from sbrk that the kernel has not taken back. */
  datatype State = State(blocks: seq<Block>, brk: int, held: iset<int>)

  /** All blocks lie in memory held, which lies below the break. */
  ghost predicate Valid(s: State) {
    && Inv(s.blocks, s.brk)
    && (forall x :: Owns(s.blocks, x) ==> x in s.held)
    && (forall x :: x in s.held ==> x < s.brk)
  }

  /** Address x is held from the kernel, but no block owns it: it can be neither used nor handed back. */
  ghost predicate Lost(s: State, x: int) { x in s.held && !Owns(s.blocks, x) }

  datatype Op =
    | Fit(need: int, k: nat)
    | Grow(need: int, start: int, newBrk: int)
    | Fail(need: int)
    | Free(k: nat, newBrk: int)

  ghost predicate NoFit(bs: seq<Block>, need: int) {
    forall i :: 0 <= i < |bs| && bs[i].free ==> bs[i].size < need
  }

  /** The kernel's side of sbrk: an aligned region above the old break, the new break at or above its end. */
  ghost predicate SbrkGives(brk: int, start: int, size: int, newBrk: int) {
    start > 0 && start % HEADER == 0 && brk <= start && start + size <= newBrk
  }

  predicate Between(from: int, x: int, to: int) { from <= x < to }

  ghost function Range(from: int, to: int): iset<int> { iset x | Between(from, x, to) }

  /** free hands the merged block back if it is a whole chunk and ends at the break. */
  predicate HandsBack(b: Block, brk: int) { b.size >= CHUNK && b.End() == brk }

  ghost predicate Next(s: State, op: Op, t: State) {
    match op
    case Fit(need, k) =>
      && need % HEADER == 0 && need >= 2 * HEADER
      && k < |s.blocks| && s.blocks[k].free && s.blocks[k].size >= need
      && t == s.(blocks := Carve(s.blocks, k, need))
    case Grow(need, start, newBrk) =>
      && need % HEADER == 0 && need >= 2 * HEADER && NoFit(s.blocks, need)
      && SbrkGives(s.brk, start, ChunkUp(need), newBrk)
      && var (bs, k) := Release(s.blocks + [Block(start, ChunkUp(need), false)], |s.blocks|);
        t == State(Carve(bs, k, need), newBrk, s.held + Range(start, start + ChunkUp(need)))
    case Fail(need) =>
      NoFit(s.blocks, need) && t == s
    case Free(k, newBrk) =>
      && k < |s.blocks| && !s.blocks[k].free
      && var (bs, i) := Release(s.blocks, k);
        if HandsBack(bs[i], s.brk) then
          // brk may refuse; the block is gone from the arena all the same
          && newBrk in {bs[i].addr, s.brk}
          && t == State(bs[..i], newBrk, if newBrk == s.brk then s.held else s.held - Range(bs[i].addr, bs[i].End()))
        else
          newBrk == s.brk && t == s.(blocks := bs)
  }

  /** The block that a call of free takes off the chains although the kernel does not take it back. */
  ghost predicate Refused(s: State, op: Op, b: Block) {
    && op.Free? && op.k < |s.blocks| && op.newBrk == s.brk
    && var (bs, i) := Release(s.blocks, op.k);
      b == bs[i] && HandsBack(b, s.brk)
  }

  ghost predicate Run(states: seq<State>, ops: seq<Op>) {
    && |states| == |ops| + 1
    && forall i :: 0 <= i < |ops| ==> Next(states[i], ops[i], states[i + 1])
  }

  // ---- cutting and pasting block sequences

  /** mid fills the place of the blocks i..j exactly: same ends, well sized, in order. */
  ghost predicate Fills(bs: seq<Block>, i: nat, j: nat, mid: seq<Block>)
    requires i < j <= |bs|
  {
    && |mid| >= 1
    && (forall a :: 0 <= a < |mid| ==> WellSized(mid[a]) && bs[i].addr <= mid[a].addr && mid[a].End() <= bs[j - 1].End())
    && (forall a, b :: 0 <= a < b < |mid| ==> mid[a].End() <= mid[b].addr)
    && (forall x :: Owns(mid, x) <==> Owns(bs[i..j], x))
  }

  lemma SpliceAt(bs: seq<Block>, i: nat, j: nat, mid: seq<Block>, a: nat)
    requires i <= j <= |bs| && a < |Splice(bs, i, j, mid)|
    ensures Splice(bs, i, j, mid)[a] ==
      if a < i then bs[a] else if a < i + |mid| then mid[a - i] else bs[a - i - |mid| + j]
  {
  }

  lemma SplicePlaced(bs: seq<Block>, brk: int, i: nat, j: nat, mid: seq<Block>)
    requires Placed(bs, brk) && i < j <= |bs| && Fills(bs, i, j, mid)
    ensures Placed(Splice(bs, i, j, mid), brk)
  {
    var cs := Splice(bs, i, j, mid);
    forall a | 0 <= a < |cs|
      ensures WellSized(cs[a]) && cs[a].End() <= brk
    {
      SpliceAt(bs, i, j, mid, a);
    }
    forall a, b | 0 <= a < b < |cs|
      ensures cs[a].End() <= cs[b].addr
    {
      SpliceAt(bs, i, j, mid, a);
      SpliceAt(bs, i, j, mid, b);
      assert a < i ==> bs[a].End() <= bs[i].addr;
      assert b >= i + |mid| ==> bs[j - 1].End() <= bs[b - i - |mid| + j].addr;
    }
  }

  lemma OwnsConcat(a: seq<Block>, b: seq<Block>, x: int)
    ensures Owns(a + b, x) <==> Owns(a, x) || Owns(b, x)
  {
    if i :| 0 <= i < |a| && a[i].Has(x) {
      assert (a + b)[i].Has(x);
    }
    if i :| 0 <= i < |b| && b[i].Has(x) {
      assert (a + b)[|a| + i].Has(x);
    }
    if i :| 0 <= i < |a + b| && (a + b)[i].Has(x) {
      assert if i < |a| then a[i].Has(x) else b[i - |a|].Has(x);
    }
  }

  lemma SpliceOwns(bs: seq<Block>, i: nat, j: nat, mid: seq<Block>, x: int)
    requires i < j <= |bs| && Fills(bs, i, j, mid)
    ensures Owns(Splice(bs, i, j, mid), x) <==> Owns(bs, x)
  {
    assert bs == bs[..i] + bs[i..j] + bs[j..];
    OwnsConcat(bs[..i] + bs[i..j], bs[j..], x);
    OwnsConcat(bs[..i], bs[i..j], x);
    OwnsConcat(bs[..i] + mid, bs[j..], x);
    OwnsConcat(bs[..i], mid, x);
  }

  lemma InUseConcat(a: seq<Block>, b: seq<Block>)
    ensures InUse(a + b) == InUse(a) + InUse(b)
  {
    forall c
      ensures c in InUse(a + b) <==> c in InUse(a) + InUse(b)
    {
      if c in InUse(a) {
        var i :| 0 <= i < |a| && !a[i].free && a[i] == c;
        assert (a + b)[i] == c;
      }
      if c in InUse(b) {
        var i :| 0 <= i < |b| && !b[i].free && b[i] == c;
        assert (a + b)[|a| + i] == c;
      }
    }
  }

  lemma PlacedDistinct(bs: seq<Block>, brk: int)
    requires Placed(bs, brk)
    ensures forall m, n :: 0 <= m < n < |bs| ==> bs[m] != bs[n]
  {
    forall m, n | 0 <= m < n < |bs|
      ensures bs[m] != bs[n]
    {
      assert WellSized(bs[m]) && bs[m].End() <= bs[n].addr;
    }
  }

  lemma InOtherPart(bs: seq<Block>, a: seq<Block>, b: seq<Block>, x: Block)
    requires (forall m, n :: 0 <= m < n < |bs| ==> bs[m] != bs[n]) && bs == a + b && x in InUse(a)
    ensures x !in InUse(b)
  {
    var i :| 0 <= i < |a| && a[i] == x;
    assert bs[i] == x;
    forall j | 0 <= j < |b| ensures b[j] != x {
      assert bs[|a| + j] == b[j];
    }
  }

  lemma InUseApart(bs: seq<Block>, a: seq<Block>, b: seq<Block>, c: seq<Block>)
    requires bs == a + b + c && forall m, n :: 0 <= m < n < |bs| ==> bs[m] != bs[n]
    ensures InUse(a) + InUse(c) == InUse(bs) - InUse(b)
  {
    hide InUse;
    InUseConcat(a + b, c);
    InUseConcat(a, b);
    InUseConcat(b, c);
    assert bs == a + (b + c);
    forall x | x in InUse(b) ensures x !in InUse(a) && x !in InUse(c) {
      InOtherPart(bs, a + b, c, x);
      if x in InUse(a) {
        InOtherPart(bs, a, b + c, x);
      }
    }
  }

  lemma SpliceInUse(bs: seq<Block>, brk: int, i: nat, j: nat, mid: seq<Block>)
    requires Placed(bs, brk) && i <= j <= |bs|
    ensures InUse(Splice(bs, i, j, mid)) == InUse(bs) - InUse(bs[i..j]) + InUse(mid)
  {
    hide Placed, InUse;
    assert bs == bs[..i] + bs[i..j] + bs[j..];
    PlacedDistinct(bs, brk);
    InUseApart(bs, bs[..i], bs[i..j], bs[j..]);
    InUseConcat(bs[..i] + mid, bs[j..]);
    InUseConcat(bs[..i], mid);
  }

  lemma InUseOne(b: Block, c: Block)
    ensures InUse([b]) == if b.free then {} else {b}
    ensures c.free ==> InUse([b, c]) == InUse([b])
  {
    assert b == [b][0] && b == [b, c][0];
  }

  // ---- what the operations keep

  /** Only blocks i and i + 1 may touch. */
  ghost predicate CoalescedBut(bs: seq<Block>, i: int) {
    forall a :: 0 <= a < |bs| - 1 && a != i ==> !Mergeable(bs, a)
  }

  /** Away from the splice, and where its rim looks the same, touching blocks are as before. */
  lemma SpliceTouches(bs: seq<Block>, i: nat, j: nat, mid: seq<Block>, a: nat)
    requires i < j <= |bs| && |mid| >= 1 && a + 1 < |Splice(bs, i, j, mid)|
    ensures a + 1 < i ==> Mergeable(Splice(bs, i, j, mid), a) == Mergeable(bs, a)
    ensures a >= i + |mid| ==> Mergeable(Splice(bs, i, j, mid), a) == Mergeable(bs, a - i - |mid| + j)
    ensures a + 1 == i && (mid[0].free ==> bs[i].free && mid[0].addr == bs[i].addr) ==>
      (Mergeable(Splice(bs, i, j, mid), a) ==> Mergeable(bs, a))
    ensures a + 1 == i + |mid| && (mid[|mid| - 1].free ==> bs[j - 1].free && mid[|mid| - 1].End() == bs[j - 1].End()) ==>
      (Mergeable(Splice(bs, i, j, mid), a) ==> Mergeable(bs, j - 1))
  {
    SpliceAt(bs, i, j, mid, a);
    SpliceAt(bs, i, j, mid, a + 1);
  }

  lemma CarveFills(bs: seq<Block>, brk: int, k: nat, need: int)
    requires Placed(bs, brk) && k < |bs| && need % HEADER == 0 && 2 * HEADER <= need <= bs[k].size
    ensures Fills(bs, k, k + 1, CarvePieces(bs[k], need))
  {
    var b, mid := bs[k], CarvePieces(bs[k], need);
    assert bs[k..k + 1] == [b];
    forall x
      ensures Owns(mid, x) <==> Owns([b], x)
    {
      OwnsOne(b, x);
      OwnsOne(mid[0], x);
      if |mid| == 2 {
        OwnsOne(mid[1], x);
        OwnsConcat([mid[0]], [mid[1]], x);
        assert mid == [mid[0]] + [mid[1]];
      } else {
        assert mid == [mid[0]];
      }
    }
  }

  lemma OwnsOne(b: Block, x: int)
    ensures Owns([b], x) <==> b.Has(x)
  {
    assert [b][0] == b;
  }

  lemma SameAddress(bs: seq<Block>, brk: int, k: nat, b: Block)
    requires Placed(bs, brk) && k < |bs| && bs[k].free && b.addr == bs[k].addr && !b.free
    ensures b !in InUse(bs)
  {
    assert WellSized(bs[k]);
    assert forall i :: 0 <= i < |bs| && i != k ==> WellSized(bs[i]) && bs[i].addr != bs[k].addr;
  }

  function CarvePieces(b: Block, need: int): seq<Block> {
    if Splits(b, need) then [Block(b.addr, need, false), Block(b.addr + need, b.size - need, true)]
    else [b.(free := false)]
  }

  lemma CarveTouches(bs: seq<Block>, k: nat, need: int)
    requires k < |bs| && bs[k].free && forall a :: 0 <= a < |bs| - 1 ==> !Mergeable(bs, a)
    ensures forall a :: 0 <= a < |Carve(bs, k, need)| - 1 ==> !Mergeable(Carve(bs, k, need), a)
  {
    forall a | 0 <= a < |Carve(bs, k, need)| - 1
      ensures !Mergeable(Carve(bs, k, need), a)
    {
      SpliceTouches(bs, k, k + 1, CarvePieces(bs[k], need), a);
      SpliceAt(bs, k, k + 1, CarvePieces(bs[k], need), a);
    }
  }

  /** Allocating from a free block: the other blocks in use are untouched, the new one is large enough,
      no byte is lost or gained. */
  lemma CarveKeepsInv(bs: seq<Block>, brk: int, k: nat, need: int)
    requires Inv(bs, brk) && k < |bs| && bs[k].free && need % HEADER == 0 && 2 * HEADER <= need <= bs[k].size
    ensures Inv(Carve(bs, k, need), brk)
    ensures forall x :: Owns(Carve(bs, k, need), x) <==> Owns(bs, x)
    ensures Carve(bs, k, need)[k].addr == bs[k].addr && !Carve(bs, k, need)[k].free
    ensures need <= Carve(bs, k, need)[k].size < need + 32
    ensures InUse(Carve(bs, k, need)) == InUse(bs) + {Carve(bs, k, need)[k]}
    ensures Carve(bs, k, need)[k] !in InUse(bs)
  {
    var b, mid := bs[k], CarvePieces(bs[k], need);
    var cs := Carve(bs, k, need);
    assert cs == Splice(bs, k, k + 1, mid) && cs[k] == mid[0];
    CarveFills(bs, brk, k, need);
    CarveTouches(bs, k, need);
    SameAddress(bs, brk, k, cs[k]);
    hide Placed, Owns, InUse, WellSized, Mergeable, Fills, Carve, Splice;
    SplicePlaced(bs, brk, k, k + 1, mid);
    forall x
      ensures Owns(cs, x) <==> Owns(bs, x)
    {
      SpliceOwns(bs, k, k + 1, mid, x);
    }
    SpliceInUse(bs, brk, k, k + 1, mid);
    assert bs[k..k + 1] == [b];
    InUseOne(b, b);
    InUseOne(mid[0], Block(b.addr + need, b.size - need, true));
  }

  lemma SetFreeKeeps(bs: seq<Block>, brk: int, k: nat)
    requires Inv(bs, brk) && k < |bs| && !bs[k].free
    ensures Placed(SetFree(bs, k), brk) && |SetFree(bs, k)| == |bs|
    ensures SetFree(bs, k)[k] == bs[k].(free := true)
    ensures forall a :: 0 <= a < |bs| - 1 && a != k && a + 1 != k ==> !Mergeable(SetFree(bs, k), a)
    ensures forall x :: Owns(SetFree(bs, k), x) <==> Owns(bs, x)
    ensures InUse(SetFree(bs, k)) == InUse(bs) - {bs[k]}
  {
    var b, mid := bs[k], [bs[k].(free := true)];
    assert bs[k..k + 1] == [b];
    assert forall x :: Owns([b], x) <==> Owns(mid, x) by {
      assert forall x :: (Owns([b], x) <==> [b][0].Has(x)) && (Owns(mid, x) <==> mid[0].Has(x));
    }
    SplicePlaced(bs, brk, k, k + 1, mid);
    forall a | 0 <= a < |bs| - 1 && a != k && a + 1 != k
      ensures !Mergeable(SetFree(bs, k), a)
    {
      SpliceTouches(bs, k, k + 1, mid, a);
    }
    forall x
      ensures Owns(SetFree(bs, k), x) <==> Owns(bs, x)
    {
      SpliceOwns(bs, k, k + 1, mid, x);
    }
    SpliceInUse(bs, brk, k, k + 1, mid);
    InUseOne(b, b);
    InUseOne(mid[0], b);
  }

  /** Joining two touching free blocks leaves the rest as it is. */
  lemma MergeKeeps(bs: seq<Block>, brk: int, k: nat)
    requires Placed(bs, brk) && Mergeable(bs, k)
    ensures Placed(Merge(bs, k), brk) && |Merge(bs, k)| == |bs| - 1
    ensures Merge(bs, k)[k] == Block(bs[k].addr, bs[k].size + bs[k + 1].size, true)
    ensures forall a :: 0 <= a < k && !Mergeable(bs, a) ==> !Mergeable(Merge(bs, k), a)
    ensures forall a :: k < a < |bs| - 1 && !Mergeable(bs, a) ==> !Mergeable(Merge(bs, k), a - 1)
    ensures forall x :: Owns(Merge(bs, k), x) <==> Owns(bs, x)
    ensures InUse(Merge(bs, k)) == InUse(bs)
  {
    hide Placed, Owns, InUse, WellSized, Fills;
    var p, q := bs[k], bs[k + 1];
    var mid := [Block(p.addr, p.size + q.size, true)];
    MergeFills(bs, brk, k);
    SplicePlaced(bs, brk, k, k + 2, mid);
    forall a: nat | a < |bs| - 2
      ensures a < k && !Mergeable(bs, a) ==> !Mergeable(Merge(bs, k), a)
      ensures k <= a && !Mergeable(bs, a + 1) ==> !Mergeable(Merge(bs, k), a)
    {
      SpliceTouches(bs, k, k + 2, mid, a);
    }
    hide Mergeable;
    forall x
      ensures Owns(Merge(bs, k), x) <==> Owns(bs, x)
    {
      SpliceOwns(bs, k, k + 2, mid, x);
    }
    SpliceInUse(bs, brk, k, k + 2, mid);
    assert bs[k..k + 2] == [p, q];
    InUseOne(p, q);
    InUseOne(mid[0], q);
  }

  lemma MergeFills(bs: seq<Block>, brk: int, k: nat)
    requires Placed(bs, brk) && Mergeable(bs, k)
    ensures Fills(bs, k, k + 2, [Block(bs[k].addr, bs[k].size + bs[k + 1].size, true)])
  {
    var p, q := bs[k], bs[k + 1];
    var mid := [Block(p.addr, p.size + q.size, true)];
    assert bs[k..k + 2] == [p] + [q];
    assert WellSized(p) && WellSized(q);
    forall x
      ensures Owns([p] + [q], x) <==> Owns(mid, x)
    {
      OwnsConcat([p], [q], x);
      OwnsOne(p, x);
      OwnsOne(q, x);
      OwnsOne(mid[0], x);
    }
  }

  lemma ReleaseLeftKeeps(bs: seq<Block>, brk: int, k: nat)
    requires Inv(bs, brk) && k < |bs| && !bs[k].free
    ensures var (cs, i) := ReleaseLeft(bs, k);
      && Placed(cs, brk) && CoalescedBut(cs, i) && cs[i].free && i <= k && |cs| - i == |bs| - k
      && cs[i].addr <= bs[k].addr && bs[k].End() == cs[i].End()
      && (forall x :: Owns(cs, x) <==> Owns(bs, x))
      && InUse(cs) == InUse(bs) - {bs[k]}
  {
    hide Placed, Owns, InUse, Inv;
    var fs := SetFree(bs, k);
    SetFreeKeeps(bs, brk, k);
    if k > 0 && Mergeable(fs, k - 1) {
      MergeKeeps(fs, brk, k - 1);
      assert WellSized(fs[k - 1]);
      var cs := Merge(fs, k - 1);
      forall a | 0 <= a < |cs| - 1 && a != k - 1
        ensures !Mergeable(cs, a)
      {
        assert if a < k - 1 then !Mergeable(fs, a) else !Mergeable(fs, a + 1);
      }
    }
  }

  /** Freeing a block: exactly that block leaves the blocks in use, no byte is lost, and again no two
      free blocks touch. */
  lemma ReleaseKeepsInv(bs: seq<Block>, brk: int, k: nat)
    requires Inv(bs, brk) && k < |bs| && !bs[k].free
    ensures var (cs, i) := Release(bs, k);
      && Inv(cs, brk) && cs[i].free && i <= k
      && cs[i].addr <= bs[k].addr && bs[k].End() <= cs[i].End()
      && (forall x :: Owns(cs, x) <==> Owns(bs, x))
      && InUse(cs) == InUse(bs) - {bs[k]}
      && (k == |bs| - 1 ==> i == |cs| - 1)
  {
    ReleaseLeftKeeps(bs, brk, k);
    var (ls, i) := ReleaseLeft(bs, k);
    if Mergeable(ls, i) {
      MergeKeeps(ls, brk, i);
      assert WellSized(ls[i + 1]);
      hide Placed, Owns, InUse, ReleaseLeft;
      var cs := Merge(ls, i);
      forall a | 0 <= a < |cs| - 1
        ensures !Mergeable(cs, a)
      {
        assert if a < i then !Mergeable(ls, a) else !Mergeable(ls, a + 1);
      }
    }
  }

  // ---- every step, every run

  lemma NeedIsAligned(request: nat)
    requires request > 0
    ensures Need(request) % 16 == 0 && Need(request) >= 2 * HEADER
    ensures request + 16 <= Need(request) < request + 32
  {
  }

  lemma ChunkIsAligned(need: int)
    requires need % HEADER == 0 && need >= 2 * HEADER
    ensures ChunkUp(need) % HEADER == 0 && ChunkUp(need) % 65536 == 0
    ensures need <= ChunkUp(need) < need + 65536
  {
  }

  /** Memory fresh from the kernel joins the arena as one more block in use. */
  lemma AppendKeepsInv(bs: seq<Block>, brk: int, b: Block, newBrk: int)
    requires Inv(bs, brk) && WellSized(b) && brk <= b.addr && b.End() <= newBrk && !b.free
    ensures Inv(bs + [b], newBrk) && b !in InUse(bs)
    ensures InUse(bs + [b]) == InUse(bs) + {b}
    ensures forall x :: Owns(bs + [b], x) <==> Owns(bs, x) || b.Has(x)
  {
    var cs := bs + [b];
    InUseConcat(bs, [b]);
    InUseOne(b, b);
    forall x
      ensures Owns(cs, x) <==> Owns(bs, x) || b.Has(x)
    {
      OwnsConcat(bs, [b], x);
      OwnsOne(b, x);
    }
    forall a | 0 <= a < |cs| - 1
      ensures !Mergeable(cs, a)
    {
      assert a < |bs| - 1 ==> !Mergeable(bs, a);
    }
  }

  /** Dropping the last block, which ends at the break. */
  lemma DropKeepsInv(bs: seq<Block>, brk: int, i: nat, newBrk: int)
    requires Inv(bs, brk) && i < |bs| && bs[i].free && bs[i].End() == brk && newBrk in {bs[i].addr, brk}
    ensures i == |bs| - 1 && Inv(bs[..i], newBrk) && InUse(bs[..i]) == InUse(bs)
    ensures forall x :: Owns(bs[..i], x) <==> Owns(bs, x) && !bs[i].Has(x)
  {
    hide InUse;
    assert WellSized(bs[|bs| - 1]) && bs[|bs| - 1].End() <= brk;
    var front := bs[..i];
    assert bs == front + [bs[i]];
    assert InUse(front) == InUse(bs) by {
      InUseConcat(front, [bs[i]]);
      InUseOne(bs[i], bs[i]);
    }
    forall a | 0 <= a < |front| - 1
      ensures !Mergeable(front, a)
    {
      assert !Mergeable(bs, a);
    }
    forall x
      ensures Owns(front, x) <==> Owns(bs, x) && !bs[i].Has(x)
    {
      OwnsConcat(front, [bs[i]], x);
      OwnsOne(bs[i], x);
      if Owns(front, x) {
        var a :| 0 <= a < |front| && front[a].Has(x);
        assert bs[a].End() <= bs[i].addr;
      }
    }
  }

  /** The block an allocation hands out. */
  ghost function Handed(s: State, op: Op): Block
    requires (op.Fit? && op.k < |s.blocks|) || op.Grow?
  {
    match op
    case Fit(need, k) => Carve(s.blocks, k, need)[k]
    case Grow(need, start, newBrk) =>
      var (bs, k) := Release(s.blocks + [Block(start, ChunkUp(need), false)], |s.blocks|);
      Carve(bs, k, need)[k]
  }

  lemma InRange(from: int, to: int, x: int)
    ensures x in Range(from, to) <==> from <= x < to
  {
    assert x in Range(from, to) <==> Between(from, x, to);
  }

  /** A step from s to t keeps all blocks in held memory below the break, and loses `gone` to no one. */
  ghost predicate Accounts(s: State, t: State, gone: iset<int>) {
    && (forall x :: Owns(t.blocks, x) ==> x in t.held)
    && (forall x :: x in t.held ==> x < t.brk)
    && (forall x :: Lost(t, x) <==> Lost(s, x) || x in gone)
  }

  lemma GrowAccounts(s: State, t: State, start: int, end: int)
    requires Valid(s) && s.brk <= start && end <= t.brk && s.brk <= t.brk && t.held == s.held + Range(start, end)
    requires forall x :: Owns(t.blocks, x) <==> Owns(s.blocks, x) || start <= x < end
    ensures Accounts(s, t, iset{})
  {
    hide Inv, Owns, Range;
    forall x
      ensures (Owns(t.blocks, x) ==> x in t.held) && (x in t.held ==> x < t.brk) && (Lost(t, x) <==> Lost(s, x))
    {
      InRange(start, end, x);
    }
  }

  lemma GrowKeepsValid(s: State, op: Op, t: State)
    requires Valid(s) && op.Grow? && Next(s, op, t)
    ensures Valid(t) && Accounts(s, t, iset{})
    ensures InUse(t.blocks) == InUse(s.blocks) + {Handed(s, op)}
    ensures Handed(s, op).size >= op.need && !Handed(s, op).free && Handed(s, op) !in InUse(s.blocks)
  {
    hide Inv, Owns, InUse, Release, Range, Accounts;
    var Grow(need, start, newBrk) := op;
    var b := Block(start, ChunkUp(need), false);
    ChunkIsAligned(need);
    AppendKeepsInv(s.blocks, s.brk, b, newBrk);
    var bs := s.blocks + [b];
    ReleaseKeepsInv(bs, newBrk, |s.blocks|);
    var (cs, k) := Release(bs, |s.blocks|);
    CarveKeepsInv(cs, newBrk, k, need);
    GrowAccounts(s, t, start, b.End());
    AccountsValid(s, t, iset{});
  }

  lemma AccountsValid(s: State, t: State, gone: iset<int>)
    requires Inv(t.blocks, t.brk) && Accounts(s, t, gone)
    ensures Valid(t)
  {
  }

  /** Block b leaves the chains; the kernel takes its memory, or does not. */
  lemma DropAccounts(s: State, t: State, b: Block)
    requires Valid(s) && b.addr <= b.End() == s.brk && t.brk in {b.addr, s.brk}
    requires forall x :: Owns(t.blocks, x) <==> Owns(s.blocks, x) && !b.Has(x)
    requires forall x :: b.Has(x) ==> Owns(s.blocks, x)
    requires t.held == if t.brk == s.brk then s.held else s.held - Range(b.addr, b.End())
    ensures Accounts(s, t, if t.brk == s.brk then Range(b.addr, b.End()) else iset{})
  {
    hide Inv, Owns, Range;
    forall x
      ensures (Owns(t.blocks, x) ==> x in t.held) && (x in t.held ==> x < t.brk)
      ensures Lost(t, x) <==> Lost(s, x) || (t.brk == s.brk && x in Range(b.addr, b.End()))
    {
      InRange(b.addr, b.End(), x);
    }
  }

  lemma OwnsBlock(bs: seq<Block>, i: nat, x: int)
    requires i < |bs| && bs[i].Has(x)
    ensures Owns(bs, x)
  {
  }

  /** What a step loses: the block of a refused hand-back. */
  ghost function Loss(s: State, op: Op): iset<int>
    requires op.Free? ==> op.k < |s.blocks|
  {
    if op.Free? && Refused(s, op, Release(s.blocks, op.k).0[Release(s.blocks, op.k).1]) then
      var b := Release(s.blocks, op.k).0[Release(s.blocks, op.k).1];
      Range(b.addr, b.End())
    else iset{}
  }

  lemma FreeKeepsValid(s: State, op: Op, t: State)
    requires Valid(s) && op.Free? && Next(s, op, t)
    ensures Valid(t) && InUse(t.blocks) == InUse(s.blocks) - {s.blocks[op.k]} && Accounts(s, t, Loss(s, op))
  {
    hide Inv, Owns, InUse, Release, Range, Accounts;
    ReleaseKeepsInv(s.blocks, s.brk, op.k);
    var (bs, i) := Release(s.blocks, op.k);
    if HandsBack(bs[i], s.brk) {
      DropKeepsInv(bs, s.brk, i, op.newBrk);
      forall x | bs[i].Has(x) ensures Owns(s.blocks, x) {
        OwnsBlock(bs, i, x);
      }
      DropAccounts(s, t, bs[i]);
      AccountsValid(s, t, Loss(s, op));
    } else {
      SameAccounts(s, t);
      AccountsValid(s, t, iset{});
    }
  }

  /** Freed memory leaves the arena if and only if the free block it joins has 65536 bytes and ends at the break. */
  lemma FreeHandsBack(s: State, op: Op, t: State)
    requires Valid(s) && op.Free? && Next(s, op, t)
    ensures var (bs, i) := Release(s.blocks, op.k);
            Owns(t.blocks, s.blocks[op.k].addr) <==> bs[i].size < 65536 || bs[i].addr + bs[i].size != s.brk
  {
    hide Inv, Owns, InUse, Release, Range;
    ReleaseKeepsInv(s.blocks, s.brk, op.k);
    var (bs, i) := Release(s.blocks, op.k);
    BlockSized(s.blocks, s.brk, op.k);
    OwnsBlock(s.blocks, op.k, s.blocks[op.k].addr);
    if HandsBack(bs[i], s.brk) {
      DropKeepsInv(bs, s.brk, i, op.newBrk);
    }
  }

  lemma BlockSized(bs: seq<Block>, brk: int, k: nat)
    requires Inv(bs, brk) && k < |bs|
    ensures bs[k].size > 0
  {
  }

  lemma SameAccounts(s: State, t: State)
    requires Valid(s) && t.held == s.held && t.brk == s.brk && forall x :: Owns(t.blocks, x) <==> Owns(s.blocks, x)
    ensures Accounts(s, t, iset{})
  {
    hide Inv, Owns;
  }

  /** One call of malloc or free: the invariant is kept; malloc adds one block to the blocks in use, large
      enough for the request, free removes one; all other blocks in use stay where they are. */
  lemma NextKeepsValid(s: State, op: Op, t: State)
    requires Valid(s) && Next(s, op, t)
    ensures Valid(t) && (op.Free? ==> op.k < |s.blocks|) && Accounts(s, t, Loss(s, op))
    ensures op.Fit? || op.Grow? ==>
      && InUse(t.blocks) == InUse(s.blocks) + {Handed(s, op)}
      && Handed(s, op) !in InUse(s.blocks) && Handed(s, op).size >= op.need
    ensures op.Fail? ==> t == s
    ensures op.Free? ==> InUse(t.blocks) == InUse(s.blocks) - {s.blocks[op.k]}
  {
    hide Inv, Owns, InUse, Release, Carve, Accounts, Lost;
    match op
    case Fit(need, k) =>
      CarveKeepsInv(s.blocks, s.brk, k, need);
      SameAccounts(s, t);
    case Grow(_, _, _) => GrowKeepsValid(s, op, t);
    case Fail(_) => SameAccounts(s, t);
    case Free(_, _) => FreeKeepsValid(s, op, t);
  }

  /** The heap before the first call. */
  function Empty(brk: int): State { State([], brk, iset{}) }

  /** Over every run: blocks are disjoint and in order, fully coalesced, and lie in memory held from sbrk. */
  lemma {:induction false} RunKeepsValid(states: seq<State>, ops: seq<Op>)
    requires Run(states, ops) && Valid(states[0])
    ensures forall i :: 0 <= i < |states| ==> Valid(states[i])
  {
    hide Valid, Next;
    if |ops| > 0 {
      var n := |ops| - 1;
      assert Run(states[..n + 1], ops[..n]);
      RunKeepsValid(states[..n + 1], ops[..n]);
      assert states[n] == states[..n + 1][n];
      NextKeepsValid(states[n], ops[n], states[n + 1]);
      assert forall i :: 0 <= i <= n ==> states[i] == states[..n + 1][i];
    }
  }

  lemma EmptyIsValid(brk: int)
    ensures Valid(Empty(brk))
  {
  }

  // ---- memory that is lost

  /** Step n of the run loses address x. */
  ghost predicate Loses(states: seq<State>, ops: seq<Op>, n: nat, x: int)
    requires Run(states, ops) && n < |ops|
  {
    exists b :: Refused(states[n], ops[n], b) && b.Has(x)
  }

  ghost predicate SomeStepLoses(states: seq<State>, ops: seq<Op>, x: int)
    requires Run(states, ops)
  {
    exists n: nat | n < |ops| :: Loses(states, ops, n, x)
  }

  lemma LossIsRefusal(s: State, op: Op, t: State, x: int)
    requires Next(s, op, t)
    ensures op.Free? ==> op.k < |s.blocks|
    ensures x in Loss(s, op) <==> exists b :: Refused(s, op, b) && b.Has(x)
  {
    hide Release, Range;
    if op.Free? {
      var b := Release(s.blocks, op.k).0[Release(s.blocks, op.k).1];
      InRange(b.addr, b.End(), x);
    }
  }

  lemma RunFront(states: seq<State>, ops: seq<Op>)
    requires Run(states, ops) && |ops| > 0
    ensures var n := |ops| - 1;
      Run(states[..n + 1], ops[..n]) && states[..n + 1][0] == states[0] && states[..n + 1][n] == states[n]
        && Next(states[n], ops[n], states[n + 1])
  {
    hide Next;
  }

  lemma LosesFront(states: seq<State>, ops: seq<Op>, x: int)
    requires Run(states, ops) && |ops| > 0 && Run(states[..|ops|], ops[..|ops| - 1])
    ensures SomeStepLoses(states, ops, x) <==>
      SomeStepLoses(states[..|ops|], ops[..|ops| - 1], x) || Loses(states, ops, |ops| - 1, x)
  {
    hide Next, Refused;
    var n := |ops| - 1;
    var front, fops := states[..n + 1], ops[..n];
    forall m: nat | m < n ensures Loses(front, fops, m, x) <==> Loses(states, ops, m, x) {
      assert front[m] == states[m] && fops[m] == ops[m];
    }
    if m: nat :| m < n && Loses(front, fops, m, x) {
      assert Loses(states, ops, m, x);
    }
  }

  lemma NothingLostYet(states: seq<State>, ops: seq<Op>, x: int)
    requires Run(states, ops) && ops == [] && states[0] == Empty(states[0].brk)
    ensures !Lost(states[0], x) && !SomeStepLoses(states, ops, x)
  {
  }

  /** Over every run from the empty heap, the memory that is held but owned by no block is exactly what the
      refused hand-backs took off the chains: nothing else is lost, and nothing lost ever comes back. */
  lemma {:induction false} RunLoses(states: seq<State>, ops: seq<Op>, x: int)
    requires Run(states, ops) && states[0] == Empty(states[0].brk)
    ensures Lost(states[|ops|], x) <==> SomeStepLoses(states, ops, x)
    decreases |ops|
  {
    hide Next, Valid, Refused, Accounts, Lost, SomeStepLoses;
    EmptyIsValid(states[0].brk);
    if ops == [] {
      NothingLostYet(states, ops, x);
    } else {
      var n := |ops| - 1;
      RunKeepsValid(states, ops);
      RunFront(states, ops);
      RunLoses(states[..n + 1], ops[..n], x);
      NextKeepsValid(states[n], ops[n], states[n + 1]);
      AccountsAt(states[n], states[n + 1], Loss(states[n], ops[n]), x);
      LossIsRefusal(states[n], ops[n], states[n + 1], x);
      LosesFront(states, ops, x);
    }
  }

  lemma AccountsAt(s: State, t: State, gone: iset<int>, x: int)
    requires Accounts(s, t, gone)
    ensures Lost(t, x) <==> Lost(s, x) || x in gone
  {
  }

  /** Free and used blocks make up exactly the memory held if and only if no hand-back was refused. */
  lemma HeldIsOwned(states: seq<State>, ops: seq<Op>)
    requires Run(states, ops) && states[0] == Empty(states[0].brk)
    ensures var s := states[|ops|];
      (forall x :: x in s.held <==> Owns(s.blocks, x)) <==>
      (forall n: nat, b | n < |ops| :: !Refused(states[n], ops[n], b))
  {
    EmptyIsValid(states[0].brk);
    RunKeepsValid(states, ops);
    var s := states[|ops|];
    hide Run, Refused, Owns, Inv;
    forall x ensures Lost(s, x) <==> SomeStepLoses(states, ops, x) {
      RunLoses(states, ops, x);
    }
    if n: nat, b :| n < |ops| && Refused(states[n], ops[n], b) {
      RefusedHas(states[n], ops[n], b);
      assert Loses(states, ops, n, b.addr);
      assert Lost(s, b.addr);
    } else {
      assert forall x :: !SomeStepLoses(states, ops, x);
      forall x ensures x in s.held <==> Owns(s.blocks, x) {
        assert !Lost(s, x);
      }
    }
  }

  lemma RefusedHas(s: State, op: Op, b: Block)
    requires Refused(s, op, b)
    ensures b.Has(b.addr)
  {
  }

  /** The smallest case: one chunk, used, freed, and not taken back. */
  lemma RefusedExample()
    ensures var s := State([Block(32, CHUNK, false)], 32 + CHUNK, Range(32, 32 + CHUNK));
      var t := s.(blocks := []);
      Valid(s) && Next(s, Op.Free(0, s.brk), t) && Valid(t) && Lost(t, 32)
  {
    var b := Block(32, CHUNK, false);
    var s := State([b], 32 + CHUNK, Range(32, 32 + CHUNK));
    forall x ensures x in s.held <==> 32 <= x < 32 + CHUNK {
      InRange(32, 32 + CHUNK, x);
    }
    assert SetFree([b], 0) == [b.(free := true)];
  }

  /** A block in use is never handed out again: what malloc returns overlaps no block in use. */
  lemma HandedIsFresh(s: State, op: Op, t: State, b: Block)
    requires Valid(s) && Next(s, op, t) && (op.Fit? || op.Grow?) && b in InUse(s.blocks)
    ensures b.End() <= Handed(s, op).addr || Handed(s, op).End() <= b.addr
  {
    hide Inv, InUse, Owns, Handed, Loss, Accounts, Release, Carve, NoFit, Range, ChunkUp;
    NextKeepsValid(s, op, t);
    InUseDisjoint(t.blocks, t.brk, Handed(s, op), b);
  }

  lemma InUseDisjoint(bs: seq<Block>, brk: int, a: Block, b: Block)
    requires Inv(bs, brk) && a in InUse(bs) && b in InUse(bs) && a != b
    ensures b.End() <= a.addr || a.End() <= b.addr
  {
    var i :| 0 <= i < |bs| && bs[i] == a;
    var j :| 0 <= j < |bs| && bs[j] == b;
  }

  ghost predicate FreeRun(bs: seq<Block>, x: int, len: int) {
    forall y :: x <= y < x + len ==> OwnsFree(bs, y)
  }

  /** Since free blocks never touch, a run of free bytes lies within one free block. */
  lemma FreeRunInOneBlock(bs: seq<Block>, brk: int, x: int, len: int) returns (i: int)
    requires Inv(bs, brk) && len >= 1 && FreeRun(bs, x, len)
    ensures 0 <= i < |bs| && bs[i].free && bs[i].addr <= x && x + len <= bs[i].End()
  {
    assert OwnsFree(bs, x);
    i :| 0 <= i < |bs| && bs[i].free && bs[i].Has(x);
    var e := bs[i].End();
    if e < x + len {
      assert OwnsFree(bs, e);
      var j :| 0 <= j < |bs| && bs[j].free && bs[j].Has(e);
      TouchingBlocks(bs, brk, i, j);
      assert false;
    }
  }

  lemma TouchingBlocks(bs: seq<Block>, brk: int, i: nat, j: nat)
    requires Placed(bs, brk) && i < |bs| && j < |bs| && bs[i].free && bs[j].free && bs[j].Has(bs[i].End())
    ensures Mergeable(bs, i)
  {
    assert WellSized(bs[i]) && WellSized(bs[j]);
    assert i < j;
    assert WellSized(bs[i + 1]);
  }

  /** malloc turns to the kernel if and only if no stretch of free bytes is long enough. */
  lemma NoFitMeansNoFreeRun(bs: seq<Block>, brk: int, need: int)
    requires Inv(bs, brk) && need >= 1
    ensures NoFit(bs, need) <==> !exists x :: FreeRun(bs, x, need)
  {
    if x :| FreeRun(bs, x, need) {
      var i := FreeRunInOneBlock(bs, brk, x, need);
    }
    if i :| 0 <= i < |bs| && bs[i].free && bs[i].size >= need {
      var x := bs[i].addr;
      assert FreeRun(bs, x, need) by {
        assert forall y :: x <= y < x + need ==> bs[i].Has(y);
      }
    }
  }
}
