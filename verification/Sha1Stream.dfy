/** SHA1Init, SHA1Update and SHA1Final of usr/klibc/sha1hash.c: hashing a message that arrives in
    pieces, against the padding of section 4 of FIPS 180-1. */
module Sha1Stream {
  import opened Powers
  import opened Sha1

  const M: int := 0x1_0000_0000

  /** A word of the bit counter. */
  type Count = x: int | 0 <= x < 0x1_0000_0000

  const INITIAL: Regs := Regs(0x67452301, 0xEFCDAB89, 0x98BADCFE, 0x10325476, 0xC3D2E1F0)

  /** The start values count the hexadecimal digits up and down, low byte first, and end in two interleaved counts. */
  lemma InitialPattern()
    ensures INITIAL.a == LoadWord(0x01, 0x23, 0x45, 0x67) && INITIAL.b == LoadWord(0x89, 0xAB, 0xCD, 0xEF)
    ensures INITIAL.c == LoadWord(0xFE, 0xDC, 0xBA, 0x98) && INITIAL.d == LoadWord(0x76, 0x54, 0x32, 0x10)
    ensures INITIAL.e == LoadWord(0xF0, 0xE1, 0xD2, 0xC3)
  {
  }

  // ---- the digest of a whole message

  /** Chain the compression function over the whole blocks of m. */
  function Absorb(h: Regs, m: seq<Byte>): Regs
    decreases |m|
  {
    if |m| < 64 then h else Absorb(Compress(h, Words(m[..64])), m[64..])
  }

  /** The length field: the number of bits modulo 2^64, high word first. */
  function LengthField(n: nat): seq<Byte> { CountDigits(HighCount(n)) + CountDigits(LowCount(n)) }

  function CountDigits(c: Count): (r: seq<Byte>)
    ensures |r| == 4
  {
    [c / 0x100_0000, c / 0x1_0000 % 256, c / 0x100 % 256, c % 256]
  }

  /** The number that bytes spell, the most significant first. */
  function BigEndian(bytes: seq<Byte>): nat {
    if bytes == [] then 0 else 256 * BigEndian(bytes[..|bytes| - 1]) + bytes[|bytes| - 1]
  }

  lemma LengthFieldAt(n: nat, i: nat)
    requires i < 8
    ensures |LengthField(n)| == 8
    ensures LengthField(n)[i] == CountDigits(if i >= 4 then LowCount(n) else HighCount(n))[i % 4]
  {
    hide CountDigits, LowCount, HighCount;
  }

  function LowCount(n: nat): Count { 8 * n % M }

  function HighCount(n: nat): Count { 8 * n / M % M }

  lemma FourDigits(bytes: seq<Byte>, c: Count)
    ensures BigEndian(bytes + CountDigits(c)) == BigEndian(bytes) * M + c
  {
    hide BigEndian;
    var d := CountDigits(c);
    var b0, b1, b2, b3 := d[0], d[1], d[2], d[3];
    assert bytes + d == bytes + [b0] + [b1] + [b2] + [b3];
    OneDigit(bytes, b0);
    OneDigit(bytes + [b0], b1);
    OneDigit(bytes + [b0] + [b1], b2);
    OneDigit(bytes + [b0] + [b1] + [b2], b3);
    DigitsAddUp(c);
  }

  lemma DigitsAddUp(c: Count)
    ensures var d := CountDigits(c);
            c == 0x100_0000 * (d[0] as int) + 0x1_0000 * (d[1] as int) + 0x100 * (d[2] as int) + d[3]
  {
    SplitDigits(c);
  }

  lemma SplitDigits(c: Count)
    ensures c == ((c / 0x100_0000 * 256 + c / 0x1_0000 % 256) * 256 + c / 0x100 % 256) * 256 + c % 256
  {
    var x, y := c / 0x100, c / 0x1_0000;
    assert c == x * 256 + c % 256;
    assert x / 256 == y && x == y * 256 + x % 256;
    assert y / 256 == c / 0x100_0000 && y == y / 256 * 256 + y % 256;
  }

  lemma OneDigit(bytes: seq<Byte>, b: Byte)
    ensures BigEndian(bytes + [b]) == 256 * BigEndian(bytes) + b
  {
    assert (bytes + [b])[..|bytes|] == bytes;
  }

  /** The length field spells the number of bits modulo 2^64. */
  lemma LengthFieldSpells(n: nat)
    ensures |LengthField(n)| == 8
    ensures BigEndian(LengthField(n)) == 8 * n % 0x1_0000_0000_0000_0000
  {
    hide BigEndian, CountDigits;
    FourDigits([], HighCount(n));
    FourDigits(CountDigits(HighCount(n)), LowCount(n));
    assert [] + CountDigits(HighCount(n)) == CountDigits(HighCount(n));
    NoDigits();
    TwoWords(8 * n);
  }

  lemma NoDigits()
    ensures BigEndian([]) == 0
  {
  }

  lemma TwoWords(x: nat)
    ensures x % 0x1_0000_0000_0000_0000 == (x / M % M) * M + x % M
  {
    var q := x / M;
    assert x == q * M + x % M && q == q / M * M + q % M;
    DivModUnique(x, 0x1_0000_0000_0000_0000, q / M, q % M * M + x % M);
  }

  /** How many bytes of an unfinished block a message of n bytes ends with. */
  function Fill(n: nat): (r: nat)
    ensures r < 64
  {
    n % 64
  }

  /** How many zero bytes bring the message and its 0x80 byte to 56 modulo 64. */
  function ZeroCount(n: nat): nat { if Fill(n) <= 55 then 55 - Fill(n) else 119 - Fill(n) }

  lemma PaddedLength(n: nat)
    ensures (n + 1 + ZeroCount(n) + 8) % 64 == 0 && ZeroCount(n) < 64
  {
    var q, r := n / 64, n % 64;
    DivModUnique(n + 1 + ZeroCount(n) + 8, 64, if r <= 55 then q + 1 else q + 2, 0);
  }

  function Padding(n: nat): (p: seq<Byte>)
    ensures (n + |p|) % 64 == 0
  {
    PaddedLength(n);
    [0x80] + seq(ZeroCount(n), _ => 0) + LengthField(n)
  }

  function RegBytes(h: Regs): seq<Byte> { ToBytes(h.a) + ToBytes(h.b) + ToBytes(h.c) + ToBytes(h.d) + ToBytes(h.e) }

  /** The digest that FIPS 180-1 defines for a message. */
  function Digest(msg: seq<Byte>): seq<Byte> { RegBytes(Absorb(INITIAL, msg + Padding(|msg|))) }

  lemma {:induction false} AbsorbConcat(h: Regs, a: seq<Byte>, b: seq<Byte>, blocks: nat)
    requires |a| == 64 * blocks
    ensures Absorb(h, a + b) == Absorb(Absorb(h, a), b)
    decreases |a|
  {
    hide Compress, Words;
    if a == [] {
      assert a + b == b;
    } else {
      assert (a + b)[..64] == a[..64] && (a + b)[64..] == a[64..] + b;
      AbsorbConcat(Compress(h, Words(a[..64])), a[64..], b, blocks - 1);
    }
  }

  lemma AbsorbBlock(h: Regs, a: seq<Byte>, block: seq<Byte>, blocks: nat)
    requires |a| == 64 * blocks && |block| == 64
    ensures Absorb(h, a + block) == Compress(Absorb(h, a), Words(block))
  {
    hide Compress, Words;
    AbsorbConcat(h, a, block, blocks);
    assert block[..64] == block && block[64..] == [];
  }

  /** Less than a block at the end changes nothing. */
  lemma AbsorbTail(h: Regs, a: seq<Byte>, tail: seq<Byte>, blocks: nat)
    requires |a| == 64 * blocks && |tail| < 64
    ensures Absorb(h, a + tail) == Absorb(h, a)
  {
    hide Compress, Words;
    AbsorbConcat(h, a, tail, blocks);
  }

  // ---- counting bits in two words

  const WRAP: int := 0x2000_0000

  /** The low word wraps around every 2^29 bytes, the high word counts the wraps. */
  lemma CountSplit(n: nat)
    ensures LowCount(n) == 8 * (n % WRAP) && HighCount(n) == n / WRAP % M
  {
    var q, r := n / WRAP, n % WRAP;
    assert n == q * WRAP + r;
    DivModUnique(8 * n, M, q, 8 * r);
  }

  /** Adding to the low word, and what it carries. */
  lemma LowCarry(n: nat, len: nat)
    ensures var (low, add) := (LowCount(n), LowCount(len));
      && LowCount(n + len) == (low + add) % M
      && ((low + add) % M < add <==> n % WRAP + len % WRAP >= WRAP)
  {
    hide LowCount, HighCount;
    CountSplit(n);
    CountSplit(len);
    CountSplit(n + len);
    SumSplit(n, len);
    ModOnce(LowCount(n) + LowCount(len), M);
  }

  lemma CountCarry(n: nat, len: nat)
    ensures var (low, add) := (LowCount(n), LowCount(len));
      && LowCount(n + len) == (low + add) % M
      && HighCount(n + len) == (HighCount(n) + (if (low + add) % M < add then 1 else 0) + len / WRAP) % M
  {
    hide LowCount, HighCount;
    LowCarry(n, len);
    CountSplit(n);
    CountSplit(n + len);
    SumSplit(n, len);
    ModAdd(n / WRAP, (if n % WRAP + len % WRAP >= WRAP then 1 else 0) + len / WRAP, M);
  }

  lemma SumSplit(n: nat, len: nat)
    ensures var carry := if n % WRAP + len % WRAP >= WRAP then 1 else 0;
      && (n + len) / WRAP == n / WRAP + len / WRAP + carry
      && (n + len) % WRAP == n % WRAP + len % WRAP - carry * WRAP
  {
    var carry := if n % WRAP + len % WRAP >= WRAP then 1 else 0;
    var q, r := n / WRAP + len / WRAP + carry, n % WRAP + len % WRAP - carry * WRAP;
    assert n == n / WRAP * WRAP + n % WRAP && len == len / WRAP * WRAP + len % WRAP;
    DivModUnique(n + len, WRAP, q, r);
  }

  lemma CarryTwice(h: nat, c: nat, q: nat)
    ensures ((h + c) % M + q) % M == (h + c + q) % M
  {
    ModAdd(h + c, q, M);
  }

  /** The fill level as the source takes it from the low word. */
  function FillOf(count: Count): (r: nat)
    ensures r < 64
  {
    count / 8 % 64
  }

  lemma Position(n: nat)
    ensures FillOf(LowCount(n)) == Fill(n)
  {
    hide LowCount;
    CountSplit(n);
    var q, x := n / WRAP, n % WRAP;
    assert n == q * WRAP + x && x == x / 64 * 64 + x % 64;
    DivModUnique(8 * x, 8, x, 0);
    DivModUnique(n, 64, q * (WRAP / 64) + x / 64, x % 64);
  }

  /** Bytes to go until the position is 56 modulo 64. */
  function ToGo(n: nat): nat { if Fill(n) <= 56 then 56 - Fill(n) else 120 - Fill(n) }

  lemma FillStep(n: nat)
    ensures Fill(n + 1) == if Fill(n) == 63 then 0 else Fill(n) + 1
  {
    var q, r := n / 64, n % 64;
    DivModUnique(n + 1, 64, if r == 63 then q + 1 else q, if r == 63 then 0 else r + 1);
  }

  lemma ToGoStep(n: nat)
    ensures Fill(n) != 56 ==> ToGo(n) == ToGo(n + 1) + 1
    ensures Fill(n) == 56 <==> ToGo(n) == 0
    ensures ToGo(n + 1) == ZeroCount(n)
  {
    hide Fill;
    FillStep(n);
  }

  /** Data that does not complete a block only lengthens the tail. */
  lemma AppendSmall(m: seq<Byte>, d: seq<Byte>)
    requires Fill(|m|) + |d| < 64
    ensures Absorb(INITIAL, m + d) == Absorb(INITIAL, m)
    ensures Tail(m + d) == Tail(m) + d && Fill(|m + d|) == Fill(|m|) + |d|
  {
    hide Absorb, Tail, Front, Fill;
    SplitTail(m);
    assert m + d == Front(m) + (Tail(m) + d);
    AbsorbTail(INITIAL, Front(m), Tail(m) + d, |m| / 64);
    AbsorbTail(INITIAL, Front(m), Tail(m), |m| / 64);
    TailIs(m + d, Front(m), Tail(m) + d, |m| / 64);
  }

  /** Data of which the first i bytes complete a block, and the rest does not complete another. */
  lemma AppendRest(m: seq<Byte>, d: seq<Byte>, i: nat)
    requires i <= |d| < i + 64 && (|m| + i) % 64 == 0
    ensures Absorb(INITIAL, m + d) == Absorb(INITIAL, m + d[..i])
    ensures Tail(m + d) == d[i..] && Fill(|m + d|) == |d| - i
  {
    hide Absorb;
    assert m + d == (m + d[..i]) + d[i..];
    AbsorbTail(INITIAL, m + d[..i], d[i..], (|m| + i) / 64);
    TailIs(m + d, m + d[..i], d[i..], (|m| + i) / 64);
  }

  ghost function Front(m: seq<Byte>): seq<Byte> { m[..64 * (|m| / 64)] }

  ghost function Tail(m: seq<Byte>): seq<Byte> { m[64 * (|m| / 64)..] }

  lemma SplitTail(m: seq<Byte>)
    ensures m == Front(m) + Tail(m) && |Front(m)| == 64 * (|m| / 64) && |Tail(m)| == Fill(|m|)
  {
    assert |m| == |m| / 64 * 64 + |m| % 64;
  }

  lemma TailIs(m: seq<Byte>, a: seq<Byte>, tail: seq<Byte>, blocks: nat)
    requires m == a + tail && |a| == 64 * blocks && |tail| < 64
    ensures Tail(m) == tail && Fill(|m|) == |tail|
  {
    DivModUnique(|m|, 64, blocks, |tail|);
  }

  /** memcpy between two arrays. */
  method Copy(dst: array<Byte>, at: nat, src: array<Byte>, from: nat, n: nat)
    requires dst != src && at + n <= dst.Length && from + n <= src.Length
    modifies dst
    ensures dst[..at + n] == old(dst[..at]) + src[from..from + n] && dst[at + n..] == old(dst[at + n..])
  {
    for k := 0 to n
      invariant dst[..at + k] == old(dst[..at]) + src[from..from + k] && dst[at + k..] == old(dst[at + k..])
    {
      dst[at + k] := src[from + k];
    }
  }

  /** SHA1_CTX, with the message it has been given. */
  class Context {
    var state: Regs
    var count0: Count
    var count1: Count
    const buffer: array<Byte>
    /** Everything hashed so far. */
    ghost var msg: seq<Byte>

    ghost predicate Valid()
      reads this, buffer
    {
      && buffer.Length == 64
      && count0 == LowCount(|msg|) && count1 == HighCount(|msg|)
      && state == Absorb(INITIAL, msg)
      && buffer[..Fill(|msg|)] == Tail(msg)
    }

    constructor ()
      ensures Valid() && msg == [] && fresh(buffer)
    {
      state := INITIAL;
      count0, count1 := 0, 0;
      buffer := new Byte[64](_ => 0);
      msg := [];
    }

    /** The 64-bit counter in two words. */
    method CountBytes(len: nat)
      requires len < M && count0 == LowCount(|msg|) && count1 == HighCount(|msg|)
      modifies this`count0, this`count1
      ensures count0 == LowCount(|msg| + len) && count1 == HighCount(|msg| + len)
    {
      hide LowCount, HighCount;
      CountCarry(|msg|, len);
      CarryTwice(count1, 1, len / WRAP);
      var add := LowCount(len);
      count0 := (count0 + add) % M;
      if count0 < add {
        count1 := (count1 + 1) % M;
      }
      count1 := (count1 + len / WRAP) % M;
    }

    /** Fill the buffer up from the data and hash it. */
    method HashBuffer(data: array<Byte>, j: nat)
      requires buffer.Length == 64 && data != buffer && j == Fill(|msg|) && j + data.Length > 63
      requires state == Absorb(INITIAL, msg) && buffer[..j] == Tail(msg)
      modifies this`state, buffer
      ensures state == Absorb(INITIAL, msg + data[..64 - j])
    {
      hide Absorb, Compress, Words;
      ghost var a, block := Front(msg), Tail(msg) + data[..64 - j];
      Copy(buffer, j, data, 0, 64 - j);
      assert buffer[0..64] == block;
      state := Transform(state, buffer, 0);
      SplitTail(msg);
      assert msg + data[..64 - j] == a + block;
      AbsorbTail(INITIAL, a, Tail(msg), |msg| / 64);
      AbsorbBlock(INITIAL, a, block, |msg| / 64);
    }

    /** Hash whole blocks straight out of the data, from position `from` on. */
    method HashData(data: array<Byte>, from: nat, ghost m0: seq<Byte>, ghost blocks: nat) returns (i: nat)
      requires data != buffer && from <= data.Length && |m0| + from == 64 * blocks
      requires state == Absorb(INITIAL, m0 + data[..from])
      modifies this`state, data
      ensures from <= i <= data.Length < i + 64
      ensures data[i..] == old(data[i..]) && state == Absorb(INITIAL, m0 + old(data[..i]))
      ensures (|m0| + i) % 64 == 0
    {
      hide Absorb, Compress, Words;
      ghost var d, n := data[..], blocks;
      i := from;
      assert data[..from] == d[..from];
      while i + 63 < data.Length
        invariant from <= i <= data.Length && |m0| + i == 64 * n
        invariant data[i..] == d[i..] && state == Absorb(INITIAL, m0 + d[..i])
      {
        assert data[i..i + 64] == d[i..i + 64];
        AbsorbBlock(INITIAL, m0 + d[..i], d[i..i + 64], n);
        assert m0 + d[..i] + d[i..i + 64] == m0 + d[..i + 64];
        assert data[i + 64..] == data[i..][64..] == d[i + 64..];
        state := Transform(state, data, i);
        i, n := i + 64, n + 1;
      }
    }

    /** All blocks that the data completes. */
    method HashBlocks(data: array<Byte>, j: nat) returns (i: nat)
      requires buffer.Length == 64 && data != buffer && j == Fill(|msg|) && j + data.Length > 63
      requires state == Absorb(INITIAL, msg) && buffer[..j] == Tail(msg)
      modifies this`state, buffer, data
      ensures 0 < i <= data.Length < i + 64 && (|msg| + i) % 64 == 0
      ensures data[i..] == old(data[i..]) && state == Absorb(INITIAL, msg + old(data[..i]))
    {
      hide Absorb, Tail, Fill, Front;
      SplitTail(msg);
      HashBuffer(data, j);
      i := HashData(data, 64 - j, msg, |msg| / 64 + 1);
    }

    /** Hash all blocks that the data completes and keep the rest of it in the buffer. */
    method TakeIn(data: array<Byte>, fill: nat)
      requires buffer.Length == 64 && data != buffer && fill == Fill(|msg|)
      requires state == Absorb(INITIAL, msg) && buffer[..fill] == Tail(msg)
      modifies this`state, buffer, data
      ensures var m := msg + old(data[..]); state == Absorb(INITIAL, m) && buffer[..Fill(|m|)] == Tail(m)
    {
      hide Absorb, Tail, Fill;
      var j, len, i := fill, data.Length, 0;
      ghost var d := data[..];
      if j + len > 63 {
        i := HashBlocks(data, j);
        j := 0;
      }
      assert data[i..len] == d[i..];
      ghost var kept := buffer[..j];
      Copy(buffer, j, data, i, len - i);
      if i == 0 {
        AppendSmall(msg, d);
        assert d[0..] == d;
      } else {
        AppendRest(msg, d, i);
        assert kept == [] && [] + d[i..] == d[i..];
      }
    }

    /** SHA1Update.  Blocks taken straight from the caller's data are hashed in place, so the data is
        scratch afterwards.  The source's 32-bit test `j + len > 63` is right as long as the sum does not
        wrap around. */
    method Update(data: array<Byte>)
      requires Valid() && data != buffer && Fill(|msg|) + data.Length < M
      modifies this, buffer, data
      ensures Valid() && msg == old(msg) + old(data[..])
    {
      hide LowCount, HighCount, Absorb, Tail, Fill, FillOf;
      var j := FillOf(count0);
      Position(|msg|);
      CountBytes(data.Length);
      ghost var m := msg + data[..];
      TakeIn(data, j);
      msg := m;
    }

    method UpdateByte(b: Byte)
      requires Valid()
      modifies this, buffer
      ensures Valid() && msg == old(msg) + [b]
    {
      hide Absorb, LowCount, HighCount, Tail;
      var data := new Byte[1](_ => b);
      assert data[..] == [b];
      Update(data);
    }

    /** The length field, taken from the counter before padding. */
    method FinalCount() returns (f: array<Byte>)
      requires Valid()
      ensures fresh(f) && f.Length == 8 && f[..] == LengthField(|msg|)
    {
      hide Absorb, LowCount, HighCount, Tail, LengthField, CountDigits, Fill;
      f := new Byte[8](_ => 0);
      ghost var field := LengthField(|msg|);
      LengthFieldAt(|msg|, 0);
      for i := 0 to 8
        invariant forall k :: 0 <= k < i ==> f[k] == field[k]
      {
        LengthFieldAt(|msg|, i);
        f[i] := CountDigits(if i >= 4 then count0 else count1)[i % 4];
      }
    }

    /** The padding loop: zero bytes until eight bytes are left in the block. */
    method PadZeros(ghost m: seq<Byte>)
      requires Valid() && msg == m + [0x80]
      modifies this, buffer
      ensures Valid() && msg == m + [0x80] + seq(ZeroCount(|m|), _ => 0)
    {
      hide Absorb, LowCount, HighCount, Tail, ToGo, ZeroCount;
      ghost var zeros := 0;
      Position(|msg|);
      ToGoStep(|m|);
      assert msg == m + [0x80] + seq(0, _ => 0);
      while FillOf(count0) != 56
        invariant Valid() && msg == m + [0x80] + seq(zeros, _ => 0) && zeros + ToGo(|msg|) == ZeroCount(|m|)
        invariant FillOf(count0) == Fill(|msg|)
        decreases ToGo(|msg|)
      {
        ToGoStep(|msg|);
        UpdateByte(0);
        zeros := zeros + 1;
        assert msg == m + [0x80] + seq(zeros, _ => 0);
        Position(|msg|);
      }
      ToGoStep(|msg|);
    }

    /** SHA1Final: pad, append the length, and read the digest out of the state. */
    method Final() returns (digest: seq<Byte>)
      requires Valid()
      modifies this, buffer
      ensures digest == Digest(old(msg))
    {
      hide Absorb, LowCount, HighCount, Tail, LengthField, ToBytes, ZeroCount;
      ghost var m := msg;
      var finalcount := FinalCount();
      UpdateByte(0x80);
      PadZeros(m);
      Update(finalcount);
      assert msg == m + Padding(|m|);
      digest := RegBytes(state);
    }
  }

  /** The source's 32-bit test whether a block is complete is right exactly up to this length. */
  lemma BlockTestIsExact(j: nat, len: nat)
    requires j < 64 && len < M
    ensures ((j + len) % M > 63 <==> j + len > 63) <==> j + len < M
  {
  }

  function Flatten(pieces: seq<seq<Byte>>): seq<Byte> {
    if pieces == [] then [] else Flatten(pieces[..|pieces| - 1]) + pieces[|pieces| - 1]
  }

  /** However a message is cut into pieces, the digest is that of the whole message. */
  method HashPieces(pieces: seq<seq<Byte>>) returns (digest: seq<Byte>)
    requires forall i :: 0 <= i < |pieces| ==> |pieces[i]| <= M - 64
    ensures digest == Digest(Flatten(pieces))
  {
    hide Absorb, LowCount, HighCount, Tail, Digest;
    var context := new Context();
    for i := 0 to |pieces|
      invariant context.Valid() && context.msg == Flatten(pieces[..i]) && fresh(context) && fresh(context.buffer)
    {
      var data := new Byte[|pieces[i]|](k requires 0 <= k < |pieces[i]| => pieces[i][k]);
      assert data[..] == pieces[i];
      context.Update(data);
      assert pieces[..i + 1][..i] == pieces[..i];
    }
    assert pieces[..|pieces|] == pieces;
    digest := context.Final();
  }
}
