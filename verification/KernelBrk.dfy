/** The kernel's side of the break, kernel/brk.c, and what becomes of free on top of it. */
module KernelBrk {
  import opened Wrappers
  import opened Heap

  const M: int := 0x1_0000_0000
  const HEAP_LIMIT: int := 0x8_0000

  /** The kernel's sbrk: the size limit grows by inc, in 32 bits. */
  function GrowLimit(base: int, lim: nat, inc: int): (r: (Option<int>, nat))
    ensures r.1 == lim || r.1 <= HEAP_LIMIT
  {
    var sum := (lim + inc) % M;
    if sum <= HEAP_LIMIT then (Some(base + sum), sum) else (None, lim)
  }

  /** The kernel's brk. It adds the distance of `end` from the start of the heap to the limit, where it should
      set the limit to it. */
  function SysBrk(base: int, lim: nat, end: int): (Option<int>, nat) {
    if end == 0 then (Some(base), lim) else GrowLimit(base, lim, (end - base) % M)
  }

  /** Asked to set the break to an address of the heap, the kernel does so if and only if the limit was zero. */
  lemma SetsBreakOnlyFromZero(base: int, lim: nat, end: int)
    requires 0 < base <= end < base + M && lim < M
    ensures SysBrk(base, lim, end).0 == Some(end) <==> lim == 0 && end - base <= 0x8_0000
  {
    var d := end - base;
    assert d % M == d;
    if lim > 0 && lim + d >= M {
      assert (lim + d) % M == lim + d - M;
    }
  }

  // ---- runs of malloc and free on this kernel

  /** The step takes its answers from the kernel, and no 32-bit sum wraps around. */
  ghost predicate Served(base: int, s: State, lim: nat, op: Op, lim': nat) {
    match op
    case Fit(_, _) => lim' == lim
    case Grow(need, start, newBrk) =>
      var end := start + ChunkUp(need);
      end - base + lim < M && SysBrk(base, lim, end) == (Some(newBrk), lim')
    case Fail(_) => lim' >= lim
    case Free(k, newBrk) =>
      && k < |s.blocks|
      && var b := Released(s.blocks, k);
        if HandsBack(b, s.brk) then
          && b.addr - base + lim < M
          && var (answer, after) := SysBrk(base, lim, b.addr);
            lim' == after && newBrk == if answer == Some(b.addr) then b.addr else s.brk
        else lim' == lim
  }

  /** The block into which freeing block k joins it. */
  ghost function Released(bs: seq<Block>, k: nat): Block
    requires k < |bs|
  {
    Release(bs, k).0[Release(bs, k).1]
  }

  /** A run of calls with the limits the kernel keeps meanwhile. */
  ghost predicate ServedRun(base: int, states: seq<State>, ops: seq<Op>, limits: seq<nat>) {
    && Run(states, ops) && |limits| == |states|
    && forall i :: 0 <= i < |ops| ==> Served(base, states[i], limits[i], ops[i], limits[i + 1])
  }

  /** Memory held lies above the start of the heap, and there is none before the limit has been raised. */
  ghost predicate Above(base: int, s: State, lim: nat) {
    && 0 < base <= s.brk
    && (forall x :: x in s.held ==> base <= x && 0 < lim)
  }

  lemma HeldBlock(base: int, s: State, lim: nat, b: Block)
    requires Valid(s) && Above(base, s, lim) && b.size > 0 && forall x :: b.Has(x) ==> Owns(s.blocks, x)
    ensures base <= b.addr && 0 < lim
  {
    hide Inv, Owns;
    assert b.Has(b.addr);
  }

  lemma ReleasedOwned(s: State, k: nat)
    requires Valid(s) && k < |s.blocks| && !s.blocks[k].free
    ensures forall x :: Released(s.blocks, k).Has(x) ==> Owns(s.blocks, x)
  {
    hide Release, Inv, Owns;
    ReleaseKeepsInv(s.blocks, s.brk, k);
    var (bs, i) := Release(s.blocks, k);
    forall x | bs[i].Has(x) ensures Owns(s.blocks, x) {
      OwnsBlock(bs, i, x);
    }
  }

  /** One call: a hand-back is refused, and the break does not go down. */
  lemma StepRefuses(base: int, s: State, lim: nat, op: Op, t: State, lim': nat)
    requires Valid(s) && Above(base, s, lim) && Next(s, op, t) && Served(base, s, lim, op, lim')
    ensures Above(base, t, lim') && s.brk <= t.brk
    ensures op.Free? && HandsBack(Released(s.blocks, op.k), s.brk) ==> Refused(s, op, Released(s.blocks, op.k))
  {
    hide Inv, Owns, Release, Carve, Range, NoFit, ChunkUp;
    match op
    case Fit(_, _) =>
    case Fail(_) =>
    case Grow(need, start, newBrk) =>
      ChunkIsAligned(need);
      GrowServed(base, lim, start + ChunkUp(need), newBrk, lim');
      forall x | x in t.held ensures base <= x && 0 < lim' {
        InRange(start, start + ChunkUp(need), x);
      }
    case Free(k, newBrk) =>
      var b := Released(s.blocks, k);
      if HandsBack(b, s.brk) {
        ReleasedOwned(s, k);
        HeldBlock(base, s, lim, b);
        FreeServed(base, lim, b.addr, lim');
      }
  }

  lemma GrowServed(base: int, lim: nat, end: int, newBrk: int, lim': nat)
    requires 0 < base < end && end - base + lim < M && SysBrk(base, lim, end) == (Some(newBrk), lim')
    ensures 0 < lim'
  {
  }

  lemma FreeServed(base: int, lim: nat, addr: int, lim': nat)
    requires 0 < base <= addr && 0 < lim && addr - base + lim < M && lim' == SysBrk(base, lim, addr).1
    ensures 0 < lim' && SysBrk(base, lim, addr).0 != Some(addr)
  {
  }

  lemma ServedFront(base: int, states: seq<State>, ops: seq<Op>, limits: seq<nat>)
    requires ServedRun(base, states, ops, limits) && |ops| > 0
    ensures var n := |ops| - 1;
      && ServedRun(base, states[..n + 1], ops[..n], limits[..n + 1])
      && states[..n + 1][0] == states[0] && states[..n + 1][n] == states[n] && limits[..n + 1][n] == limits[n]
      && Next(states[n], ops[n], states[n + 1]) && Served(base, states[n], limits[n], ops[n], limits[n + 1])
  {
    hide Served, Next;
  }

  lemma {:induction false} ServedAbove(base: int, states: seq<State>, ops: seq<Op>, limits: seq<nat>)
    requires base > 0 && ServedRun(base, states, ops, limits) && states[0] == Empty(base)
    ensures Valid(states[|ops|]) && Above(base, states[|ops|], limits[|ops|])
    decreases |ops|
  {
    hide Served, Next, Valid;
    EmptyIsValid(base);
    if |ops| > 0 {
      var n := |ops| - 1;
      ServedFront(base, states, ops, limits);
      ServedAbove(base, states[..n + 1], ops[..n], limits[..n + 1]);
      StepRefuses(base, states[n], limits[n], ops[n], states[n + 1], limits[n + 1]);
      NextKeepsValid(states[n], ops[n], states[n + 1]);
    }
  }

  /** On this kernel every hand-back is refused: over every run the break never goes down, and each block that
      free hands back is lost. */
  lemma {:induction false} HandBacksRefused(base: int, states: seq<State>, ops: seq<Op>, limits: seq<nat>, n: nat)
    requires base > 0 && ServedRun(base, states, ops, limits) && states[0] == Empty(base) && n < |ops|
    ensures states[n].brk <= states[n + 1].brk
    ensures ops[n].Free? ==> ops[n].k < |states[n].blocks|
    ensures ops[n].Free? && HandsBack(Released(states[n].blocks, ops[n].k), states[n].brk) ==>
      Refused(states[n], ops[n], Released(states[n].blocks, ops[n].k))
    decreases |ops|
  {
    hide Served, Next, Valid, Above, Refused, Released;
    var m := |ops| - 1;
    ServedFront(base, states, ops, limits);
    ServedAbove(base, states[..m + 1], ops[..m], limits[..m + 1]);
    if n < m {
      HandBacksRefused(base, states[..m + 1], ops[..m], limits[..m + 1], n);
      assert states[..m + 1][n] == states[n] && states[..m + 1][n + 1] == states[n + 1] && ops[..m][n] == ops[n];
    } else {
      FreesBlock(states[n], ops[n], states[n + 1]);
      StepRefuses(base, states[n], limits[n], ops[n], states[n + 1], limits[n + 1]);
    }
  }

  lemma FreesBlock(s: State, op: Op, t: State)
    requires Next(s, op, t)
    ensures op.Free? ==> op.k < |s.blocks|
  {
  }
}
