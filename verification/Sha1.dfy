/** The SHA-1 block function of usr/klibc/sha1hash.c against sections 7 and 8 of FIPS 180-1. */
module Sha1 {

  type Word = bv32
  type Byte = x: int | 0 <= x < 256

  datatype Regs = Regs(a: Word, b: Word, c: Word, d: Word, e: Word)

  function Rol1(x: Word): Word { (x << 1) | (x >> 31) }
  function Rol5(x: Word): Word { (x << 5) | (x >> 27) }
  function Rol30(x: Word): Word { (x << 30) | (x >> 2) }

  predicate Bit(x: Word, i: bv32)
    requires i < 32
  {
    (x >> i) & 1 == 1
  }

  /** A rotation to the left by k moves bit i to bit i + k modulo 32. */
  lemma Rotations(x: Word, i: bv32)
    requires i < 32
    ensures Bit(Rol1(x), (i + 1) % 32) == Bit(x, i)
    ensures Bit(Rol5(x), (i + 5) % 32) == Bit(x, i)
    ensures Bit(Rol30(x), (i + 30) % 32) == Bit(x, i)
  {
  }

  function Octet(b: Byte): bv8 { b as bv8 }

  function Value(o: bv8): Byte { o as int }

  lemma OctetOfValue(o: bv8)
    ensures Octet(Value(o)) == o
  {
  }

  function Extend(o: bv8): Word { o as bv32 }

  function Truncate(w: Word): bv8 { (w & 0xFF) as bv8 }

  function Widen(b: Byte): Word { Extend(Octet(b)) }

  function LowByte(w: Word): Byte { Value(Truncate(w)) }

  function Pack(p: Word, q: Word, r: Word, s: Word): Word { (p << 24) | (q << 16) | (r << 8) | s }

  /** The byte of a word at position i, the most significant first. */
  function Field(w: Word, i: nat): Word
    requires i < 4
  {
    (if i == 0 then w >> 24 else if i == 1 then w >> 16 else if i == 2 then w >> 8 else w) & 0xFF
  }

  /** A big-endian word. */
  function ToWord(b0: Byte, b1: Byte, b2: Byte, b3: Byte): Word {
    Pack(Widen(b0), Widen(b1), Widen(b2), Widen(b3))
  }

  function ToBytes(w: Word): (r: seq<Byte>)
    ensures |r| == 4
  {
    [LowByte(Field(w, 0)), LowByte(Field(w, 1)), LowByte(Field(w, 2)), LowByte(Field(w, 3))]
  }

  lemma WidenLow(w: Word, i: nat)
    requires i < 4
    ensures Widen(LowByte(Field(w, i))) == Field(w, i)
  {
    hide Octet, Value;
    OctetOfValue(Truncate(Field(w, i)));
  }

  lemma PackFields(w: Word)
    ensures Pack(Field(w, 0), Field(w, 1), Field(w, 2), Field(w, 3)) == w
  {
  }

  /** The bytes of a word, read back. */
  lemma WordRoundTrip(w: Word)
    ensures var b := ToBytes(w); ToWord(b[0], b[1], b[2], b[3]) == w
  {
    hide Widen, LowByte, Pack, Field;
    forall i | 0 <= i < 4 ensures Widen(LowByte(Field(w, i))) == Field(w, i) {
      WidenLow(w, i);
    }
    PackFields(w);
  }

  /** ntohl on a machine that keeps the low byte first. */
  function Ntohl(w: Word): Word {
    var b := ToBytes(w);
    ToWord(b[3], b[2], b[1], b[0])
  }

  /** The four bytes of a word in the memory of such a machine. */
  function LoadWord(b0: Byte, b1: Byte, b2: Byte, b3: Byte): Word { ToWord(b3, b2, b1, b0) }

  lemma NtohlLoads(b0: Byte, b1: Byte, b2: Byte, b3: Byte)
    ensures Ntohl(LoadWord(b0, b1, b2, b3)) == ToWord(b0, b1, b2, b3)
  {
    hide Widen, LowByte, Pack, Field;
    var w := LoadWord(b0, b1, b2, b3);
    forall i | 0 <= i < 4 ensures Widen(LowByte(Field(w, i))) == Field(w, i) {
      WidenLow(w, i);
    }
    FieldsOfWidened(b3, b2, b1, b0);
  }

  lemma FieldsOfWidened(b0: Byte, b1: Byte, b2: Byte, b3: Byte)
    ensures var w := ToWord(b0, b1, b2, b3);
            && Field(w, 0) == Widen(b0) && Field(w, 1) == Widen(b1)
            && Field(w, 2) == Widen(b2) && Field(w, 3) == Widen(b3)
  {
    hide Octet, Pack, Field, Extend;
    Fields(Octet(b0), Octet(b1), Octet(b2), Octet(b3));
  }

  lemma Fields(p: bv8, q: bv8, r: bv8, s: bv8)
    ensures var w := Pack(Extend(p), Extend(q), Extend(r), Extend(s));
            && Field(w, 0) == Extend(p) && Field(w, 1) == Extend(q)
            && Field(w, 2) == Extend(r) && Field(w, 3) == Extend(s)
  {
  }

  // ---- FIPS 180-1, section 7

  function K(t: nat): Word {
    if t < 20 then 0x5A827999 else if t < 40 then 0x6ED9EBA1 else if t < 60 then 0x8F1BBCDC else 0xCA62C1D6
  }

  /** k is the integer part of 2^30 times the square root of n. */
  predicate ScaledRoot(k: int, n: int) { k * k <= n * 0x1000_0000_0000_0000 < (k + 1) * (k + 1) }

  /** The constants are the square roots of 2, 3, 5 and 10. */
  lemma RoundConstants(t: nat)
    ensures ScaledRoot(K(t) as int, if t < 20 then 2 else if t < 40 then 3 else if t < 60 then 5 else 10)
  {
    assert ScaledRoot(0x5A827999, 2) && ScaledRoot(0x6ED9EBA1, 3);
    assert ScaledRoot(0x8F1BBCDC, 5) && ScaledRoot(0xCA62C1D6, 10);
  }

  function F(t: nat, b: Word, c: Word, d: Word): Word {
    if t < 20 then (b & c) | (!b & d)
    else if t < 40 then b ^ c ^ d
    else if t < 60 then (b & c) | (b & d) | (c & d)
    else b ^ c ^ d
  }

  function Mix(x: Word, y: Word, z: Word, w: Word): Word { Rol1(x ^ y ^ z ^ w) }

  /** The 80-word schedule. */
  function W(block: seq<Word>, t: nat): Word
    requires |block| == 16
  {
    if t < 16 then block[t]
    else Mix(W(block, t - 3), W(block, t - 8), W(block, t - 14), W(block, t - 16))
  }

  /** The sum modulo 2^32. */
  function Sum(v: Word, f: Word, z: Word, w: Word, k: Word): Word { v + f + z + w + k }

  function Step(t: nat, r: Regs, w: Word): Regs {
    Regs(Sum(Rol5(r.a), F(t, r.b, r.c, r.d), r.e, w, K(t)), r.a, Rol30(r.b), r.c, r.d)
  }

  /** The registers after t of the 80 steps. */
  function Rounds(block: seq<Word>, h: Regs, t: nat): Regs
    requires |block| == 16
  {
    if t == 0 then h else Step(t - 1, Rounds(block, h, t - 1), W(block, t - 1))
  }

  const ROUNDS: nat := 80

  function AddRegs(h: Regs, r: Regs): Regs {
    Regs(h.a + r.a, h.b + r.b, h.c + r.c, h.d + r.d, h.e + r.e)
  }

  function Compress(h: Regs, block: seq<Word>): Regs
    requires |block| == 16
  {
    AddRegs(h, Rounds(block, h, ROUNDS))
  }

  function Words(bytes: seq<Byte>): (r: seq<Word>)
    requires |bytes| == 64
    ensures |r| == 16
  {
    seq(16, i requires 0 <= i < 16 => ToWord(bytes[4 * i], bytes[4 * i + 1], bytes[4 * i + 2], bytes[4 * i + 3]))
  }

  // ---- the source's round functions

  /** The operations of R0 to R4, which save instructions over the definition. */
  function FastF(t: nat, w: Word, x: Word, y: Word): Word {
    if t < 20 then (w & (x ^ y)) ^ y
    else if t < 40 then w ^ x ^ y
    else if t < 60 then ((w | x) & y) | (w & x)
    else w ^ x ^ y
  }

  lemma ChooseEq(w: Word, x: Word, y: Word)
    ensures (w & (x ^ y)) ^ y == (w & x) | (!w & y)
  {
  }

  lemma MajorityEq(w: Word, x: Word, y: Word)
    ensures ((w | x) & y) | (w & x) == (w & x) | (w & y) | (x & y)
  {
  }

  lemma FastFIsF(t: nat, w: Word, x: Word, y: Word)
    ensures FastF(t, w, x, y) == F(t, w, x, y)
  {
    ChooseEq(w, x, y);
    MajorityEq(w, x, y);
  }

  /** The source adds up in another order. */
  function FastSum(z: Word, f: Word, w: Word, k: Word, v: Word): Word { z + (f + w + k + v) }

  lemma SumReorder(z: Word, f: Word, w: Word, k: Word, v: Word)
    ensures FastSum(z, f, w, k, v) == Sum(v, f, z, w, k)
  {
  }

  /** One round macro: the fifth register receives the sum, the second is rotated, no register moves. */
  method Round(t: nat, v: Word, w: Word, x: Word, y: Word, z: Word, word: Word) returns (z': Word, w': Word)
    ensures Regs(z', v, w', x, y) == Step(t, Regs(v, w, x, y, z), word)
  {
    hide F, FastF, K, Rol5, Rol30, Sum, FastSum;
    FastFIsF(t, w, x, y);
    SumReorder(z, FastF(t, w, x, y), word, K(t), Rol5(v));
    z' := FastSum(z, FastF(t, w, x, y), word, K(t), Rol5(v));
    w' := Rol30(w);
  }

  /** The last sixteen words of the schedule, each at its place modulo sixteen; words of the block not yet
      reached still in the byte order of the machine. */
  ghost predicate Scheduled(l: seq<Word>, block: seq<Word>, t: nat) {
    && |l| == 16 && |block| == 16
    && (forall s: nat :: t <= s + 16 && s < t ==> l[s % 16] == W(block, s))
    && (forall s :: t <= s < 16 ==> Ntohl(l[s]) == block[s])
  }

  /** blk0 and blk: produce word t of the schedule in place, out of the words that are there. */
  method NextWord(l: array<Word>, ghost block: seq<Word>, t: nat) returns (w: Word)
    requires l.Length == 16 && |block| == 16 && Scheduled(l[..], block, t)
    modifies l
    ensures Scheduled(l[..], block, t + 1) && w == W(block, t)
  {
    hide Mix, Ntohl;
    if t < 16 {
      w := Ntohl(l[t]);
    } else {
      assert (t - 3) % 16 == (t + 13) % 16 && (t - 8) % 16 == (t + 8) % 16;
      assert (t - 14) % 16 == (t + 2) % 16 && (t - 16) % 16 == t % 16;
      w := Mix(l[(t + 13) % 16], l[(t + 8) % 16], l[(t + 2) % 16], l[t % 16]);
    }
    l[t % 16] := w;
  }

  /** Five rounds bring every register name back to its place. */
  method FiveRounds(l: array<Word>, ghost block: seq<Word>, ghost h: Regs, r: Regs, t: nat) returns (r': Regs)
    requires l.Length == 16 && |block| == 16 && Scheduled(l[..], block, t) && r == Rounds(block, h, t)
    modifies l
    ensures Scheduled(l[..], block, t + 5) && r' == Rounds(block, h, t + 5)
  {
    hide Scheduled, Step, W;
    var Regs(a, b, c, d, e) := r;
    var w := NextWord(l, block, t);
    e, b := Round(t, a, b, c, d, e, w);
    w := NextWord(l, block, t + 1);
    d, a := Round(t + 1, e, a, b, c, d, w);
    w := NextWord(l, block, t + 2);
    c, e := Round(t + 2, d, e, a, b, c, w);
    w := NextWord(l, block, t + 3);
    b, d := Round(t + 3, c, d, e, a, b, w);
    w := NextWord(l, block, t + 4);
    a, c := Round(t + 4, b, c, d, e, a, w);
    r' := Regs(a, b, c, d, e);
    assert Rounds(block, h, t + 2) == Step(t + 1, Rounds(block, h, t + 1), W(block, t + 1));
    assert Rounds(block, h, t + 4) == Step(t + 3, Rounds(block, h, t + 3), W(block, t + 3));
  }

  /** The block as it lies in memory, before the first round. */
  ghost predicate Untouched(l: seq<Word>, block: seq<Word>) {
    |l| == 16 && |block| == 16 && forall i :: 0 <= i < 16 ==> Ntohl(l[i]) == block[i]
  }

  lemma NothingScheduled(l: seq<Word>, block: seq<Word>, h: Regs)
    requires Untouched(l, block)
    ensures Scheduled(l, block, 0) && Rounds(block, h, 0) == h
  {
    hide Ntohl;
  }

  method EightyRounds(l: array<Word>, ghost block: seq<Word>, h: Regs) returns (r: Regs)
    requires l.Length == 16 && |block| == 16 && Untouched(l[..], block)
    modifies l
    ensures r == Rounds(block, h, ROUNDS)
  {
    hide Scheduled, Rounds, W, Untouched;
    NothingScheduled(l[..], block, h);
    r := h;
    for g := 0 to 16
      invariant Scheduled(l[..], block, 5 * g) && r == Rounds(block, h, 5 * g)
    {
      r := FiveRounds(l, block, h, r, 5 * g);
    }
  }

  /** SHA1Transform: hashes the 64 bytes at `off`, using their memory for the schedule.  What is left
      there afterwards is scratch. */
  method Transform(h: Regs, data: array<Byte>, off: nat) returns (h': Regs)
    requires off + 64 <= data.Length
    modifies data
    ensures h' == Compress(h, Words(old(data[off..off + 64])))
    ensures data[..off] == old(data[..off]) && data[off + 64..] == old(data[off + 64..])
  {
    hide Rounds, Words, AddRegs, Untouched;
    var l := LoadBlock(data, off);
    var r := EightyRounds(l, Words(data[off..off + 64]), h);
    h' := AddRegs(h, r);
    StoreBlock(l, data, off);
  }

  /** The block's memory seen as words. */
  method LoadBlock(data: array<Byte>, off: nat) returns (l: array<Word>)
    requires off + 64 <= data.Length
    ensures fresh(l) && l.Length == 16 && Untouched(l[..], Words(data[off..off + 64]))
  {
    hide ToWord, LoadWord, Ntohl;
    l := new Word[16](_ => 0);
    for i := 0 to 16
      invariant forall k :: 0 <= k < i ==> Ntohl(l[k]) == Words(data[off..off + 64])[k]
    {
      var j := off + 4 * i;
      NtohlLoads(data[j], data[j + 1], data[j + 2], data[j + 3]);
      l[i] := LoadWord(data[j], data[j + 1], data[j + 2], data[j + 3]);
    }
  }

  /** The schedule words lie in the block's own memory, in the byte order of the machine. */
  method StoreBlock(l: array<Word>, data: array<Byte>, off: nat)
    requires l.Length == 16 && off + 64 <= data.Length
    modifies data
    ensures data[..off] == old(data[..off]) && data[off + 64..] == old(data[off + 64..])
  {
    for i := 0 to 16
      invariant data[..off] == old(data[..off]) && data[off + 64..] == old(data[off + 64..])
    {
      var b := ToBytes(l[i]);
      data[off + 4 * i], data[off + 4 * i + 1], data[off + 4 * i + 2], data[off + 4 * i + 3] := b[3], b[2], b[1], b[0];
    }
  }
}
