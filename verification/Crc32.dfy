/** CRC-32 of usr/klibc/zlib/crc32.c against the bit-serial shift register of RFC 1952, section 8.

    Machine words are sequences of 32 bits, least significant first, so that loading a little-endian
    word is concatenation.  The register holds a polynomial over GF(2), lowest power in the most
    significant bit; BitStep multiplies it by x modulo the CRC polynomial.  Everything fast in the
    source rests on one fact: BitStep is linear. */
module Crc32 {
  import opened Wrappers

  type Bits = seq<bool>
  type Byte = b: Bits | |b| == 8 witness Zeros(8)
  type Word = w: Bits | |w| == 32 witness Zeros(32)

  function Zeros(n: nat): (r: Bits)
    ensures |r| == n && forall i :: 0 <= i < n ==> !r[i]
  {
    seq(n, _ => false)
  }

  function Xor(a: Word, b: Word): (r: Word)
    ensures forall i :: 0 <= i < 32 ==> r[i] == (a[i] != b[i])
  {
    seq(32, i requires 0 <= i < 32 => a[i] != b[i])
  }

  function Not(a: Word): (r: Word)
    ensures forall i :: 0 <= i < 32 ==> r[i] == !a[i]
  {
    seq(32, i requires 0 <= i < 32 => !a[i])
  }

  /** Logical shift right by k: the k low bits fall out. */
  function Shr(a: Word, k: nat): (r: Word)
    requires k <= 32
    ensures forall i :: 0 <= i < 32 ==> r[i] == (i + k < 32 && a[i + k])
  {
    a[k..] + Zeros(k)
  }

  function ToWord(b: Bits): (r: Word)
    requires |b| <= 32
    ensures forall i :: 0 <= i < 32 ==> r[i] == (i < |b| && b[i])
  {
    b + Zeros(32 - |b|)
  }

  const ZERO: Word := Zeros(32)

  // ---- reference definition

  /** x^32 modulo the CRC polynomial; x^k sits in bit 31 - k. */
  const POLY_TERMS: set<int> := {0, 1, 2, 4, 5, 7, 8, 10, 11, 12, 16, 22, 23, 26}

  function Poly(): (r: Word)
    ensures forall i :: 0 <= i < 32 ==> r[i] == (31 - i in POLY_TERMS)
  {
    seq(32, i requires 0 <= i < 32 => 31 - i in POLY_TERMS)
  }

  function BitStep(c: Word): Word { if c[0] then Xor(Poly(), Shr(c, 1)) else Shr(c, 1) }

  function Steps(n: nat, c: Word): Word { if n == 0 then c else Steps(n - 1, BitStep(c)) }

  /** Feed message bits into the register one at a time: add the bit, multiply by x. */
  function FeedBits(c: Word, bits: Bits): Word
    decreases |bits|
  {
    if bits == [] then c else FeedBits(BitStep(Xor(c, ToWord(bits[..1]))), bits[1..])
  }

  function Register(c: Word, buf: seq<Byte>): Word
    decreases |buf|
  {
    if buf == [] then c else Register(FeedBits(c, buf[0]), buf[1..])
  }

  /** The CRC of `buf` continuing from a previous CRC. */
  function Crc(crc: Word, buf: seq<Byte>): Word { Not(Register(Not(crc), buf)) }

  // ---- linearity

  lemma BitStepLinear(x: Word, y: Word)
    ensures BitStep(Xor(x, y)) == Xor(BitStep(x), BitStep(y))
  {
  }

  lemma {:induction false} StepsLinear(n: nat, x: Word, y: Word)
    ensures Steps(n, Xor(x, y)) == Xor(Steps(n, x), Steps(n, y))
    decreases n
  {
    if n > 0 {
      BitStepLinear(x, y);
      StepsLinear(n - 1, BitStep(x), BitStep(y));
    }
  }

  lemma {:induction false} StepsAdd(a: nat, b: nat, c: Word)
    ensures Steps(a + b, c) == Steps(b, Steps(a, c))
    decreases a
  {
    if a > 0 {
      StepsAdd(a - 1, b, BitStep(c));
    }
  }

  // ---- bytes and words

  /** Zero bits fall out of the register without a trace. */
  lemma {:induction false} StepsOfZeros(n: nat, c: Word)
    requires n <= 32 && forall i :: 0 <= i < n ==> !c[i]
    ensures Steps(n, c) == Shr(c, n)
    decreases n
  {
    if n == 0 {
      assert Shr(c, 0) == c;
    } else {
      var d := BitStep(c);
      assert d == Shr(c, 1);
      StepsOfZeros(n - 1, d);
      assert Shr(d, n - 1) == Shr(c, n);
    }
  }

  /** One table look-up replaces eight bit steps, also with n more steps to follow. */
  lemma ByteStep(n: nat, v: Word)
    ensures Steps(8 + n, v) == Xor(Steps(8 + n, ToWord(v[..8])), Steps(n, Shr(v, 8)))
  {
    var lo: Word, hi: Word := ToWord(v[..8]), Zeros(8) + v[8..];
    assert v == Xor(lo, hi);
    StepsLinear(8 + n, lo, hi);
    StepsAdd(8, n, hi);
    StepsOfZeros(8, hi);
    assert Shr(hi, 8) == Shr(v, 8);
  }

  lemma OneByteStep(v: Word)
    ensures Steps(8, v) == Xor(Steps(8, ToWord(v[..8])), Shr(v, 8))
  {
    ByteStep(0, v);
  }

  lemma BytesOf(v: Word)
    ensures Shr(v, 8)[..8] == v[8..16] && Shr(v, 16)[..8] == v[16..24] && Shr(v, 24) == ToWord(v[24..])
    ensures Shr(Shr(v, 8), 8) == Shr(v, 16) && Shr(Shr(v, 16), 8) == Shr(v, 24)
  {
  }

  /** Four table look-ups replace thirty-two bit steps. */
  lemma WordStep(v: Word)
    ensures Steps(32, v) ==
      Xor(Xor(Xor(Steps(32, ToWord(v[..8])), Steps(24, ToWord(v[8..16]))), Steps(16, ToWord(v[16..24]))), Steps(8, ToWord(v[24..])))
  {
    hide Steps, Xor;
    var v1, v2, v3 := Shr(v, 8), Shr(v, 16), Shr(v, 24);
    BytesOf(v);
    ByteStep(24, v);
    ByteStep(16, v1);
    ByteStep(8, v2);
    var a, b, c, d := Steps(32, ToWord(v[..8])), Steps(24, ToWord(v[8..16])), Steps(16, ToWord(v[16..24])), Steps(8, v3);
    XorAssoc(a, b, Xor(c, d));
    XorAssoc(Xor(a, b), c, d);
  }

  lemma XorAssoc(a: Word, b: Word, c: Word)
    ensures Xor(Xor(a, b), c) == Xor(a, Xor(b, c))
  {
  }

  /** The first of several bits, and the rest behind it. */
  lemma FirstBit(c: Word, bits: Bits)
    requires 0 < |bits| <= 32
    ensures var (first, rest) := (ToWord(bits[..1]), ToWord([false] + bits[1..]));
      && Xor(c, ToWord(bits)) == Xor(Xor(c, first), rest) && BitStep(rest) == ToWord(bits[1..])
  {
    var first, rest := ToWord(bits[..1]), ToWord([false] + bits[1..]);
    assert ToWord(bits) == Xor(first, rest);
    XorAssoc(c, first, rest);
    assert BitStep(rest) == ToWord(bits[1..]);
  }

  lemma FeedStep(c: Word, bits: Bits)
    requires bits != []
    ensures FeedBits(c, bits) == FeedBits(BitStep(Xor(c, ToWord(bits[..1]))), bits[1..])
  {
    hide BitStep, Xor, ToWord;
  }

  lemma StepsStep(n: nat, c: Word)
    ensures Steps(0, c) == c && Steps(n + 1, c) == Steps(n, BitStep(c))
  {
    hide BitStep;
  }

  lemma NoBits(c: Word)
    ensures FeedBits(c, []) == c && Xor(c, ToWord([])) == c
  {
  }

  /** Up to 32 bits may be added at once, in front of as many steps. */
  lemma {:induction false} FeedIsSteps(c: Word, bits: Bits)
    requires |bits| <= 32
    ensures FeedBits(c, bits) == Steps(|bits|, Xor(c, ToWord(bits)))
    decreases |bits|
  {
    hide FeedBits, Steps, Xor, ToWord, BitStep;
    if bits == [] {
      NoBits(c);
      StepsStep(0, c);
    } else {
      var first, rest := ToWord(bits[..1]), ToWord([false] + bits[1..]);
      FirstBit(c, bits);
      FeedStep(c, bits);
      BitStepLinear(Xor(c, first), rest);
      FeedIsSteps(BitStep(Xor(c, first)), bits[1..]);
      StepsStep(|bits| - 1, Xor(c, ToWord(bits)));
    }
  }

  lemma {:induction false} FeedConcat(c: Word, a: Bits, b: Bits)
    ensures FeedBits(c, a + b) == FeedBits(FeedBits(c, a), b)
    decreases |a|
  {
    if a == [] {
      assert a + b == b;
    } else {
      assert (a + b)[1..] == a[1..] + b && (a + b)[..1] == a[..1];
      FeedConcat(BitStep(Xor(c, ToWord(a[..1]))), a[1..], b);
    }
  }

  function LoadWord(b0: Byte, b1: Byte, b2: Byte, b3: Byte): Word { b0 + (b1 + (b2 + b3)) }

  /** Feeding four bytes is feeding one little-endian word. */
  lemma FourBytes(c: Word, b0: Byte, b1: Byte, b2: Byte, b3: Byte)
    ensures Register(c, [b0, b1, b2, b3]) == FeedBits(c, LoadWord(b0, b1, b2, b3))
  {
    assert [b0, b1, b2, b3] == [b0] + ([b1] + ([b2] + [b3]));
    RegisterConcat(c, [b0], [b1] + ([b2] + [b3]));
    RegisterConcat(Register(c, [b0]), [b1], [b2] + [b3]);
    RegisterConcat(Register(Register(c, [b0]), [b1]), [b2], [b3]);
    FeedConcat(c, b0, b1 + (b2 + b3));
    FeedConcat(FeedBits(c, b0), b1, b2 + b3);
    FeedConcat(FeedBits(FeedBits(c, b0), b1), b2, b3);
  }

  lemma {:induction false} RegisterConcat(c: Word, a: seq<Byte>, b: seq<Byte>)
    ensures Register(c, a + b) == Register(Register(c, a), b)
    decreases |a|
  {
    if a == [] {
      assert a + b == b;
    } else {
      assert (a + b)[1..] == a[1..] + b;
      RegisterConcat(FeedBits(c, a[0]), a[1..], b);
    }
  }

  // ---- table driven computation

  function Index(b: Bits): (n: nat)
    ensures |b| == 8 ==> n < 256
  {
    IndexBound(b);
    ToNat(b)
  }

  function ToNat(b: Bits): nat { if b == [] then 0 else (if b[0] then 1 else 0) + 2 * ToNat(b[1..]) }

  function FromNat(n: nat, len: nat): (b: Bits)
    ensures |b| == len
  {
    if len == 0 then [] else [n % 2 == 1] + FromNat(n / 2, len - 1)
  }

  lemma {:induction false} NatRoundTrip(b: Bits)
    ensures FromNat(ToNat(b), |b|) == b
  {
    if b != [] {
      NatRoundTrip(b[1..]);
    }
  }

  lemma IndexBound(b: Bits)
    ensures |b| == 8 ==> ToNat(b) < 256
  {
    if |b| == 8 {
      assert ToNat(b[8..]) == 0 && ToNat(b[7..]) <= 1 by { assert b[7..][1..] == b[8..]; }
      assert b[5..][1..] == b[6..] && b[6..][1..] == b[7..] && b[4..][1..] == b[5..] && b[3..][1..] == b[4..];
      assert b[2..][1..] == b[3..] && b[1..][1..] == b[2..];
      assert ToNat(b[5..]) <= 7 && ToNat(b[3..]) <= 31 && ToNat(b[1..]) <= 127;
    }
  }

  /** Entry n of table k is the CRC of byte n followed by k zero bytes. */
  ghost predicate IsTable(t: array2<Word>)
    reads t
  {
    && t.Length0 == 4 && t.Length1 == 256
    && forall k, n :: 0 <= k < 4 && 0 <= n < 256 ==> t[k, n] == Steps(8 * k + 8, FromNat(n, 32))
  }

  lemma {:induction false} FromNatWide(n: nat, len: nat, more: nat)
    ensures FromNat(n, len) + Zeros(more) == FromNat(n, len + more) || n >= Pow(len)
    decreases len
  {
    if len == 0 {
      FromZero(more);
    } else {
      FromNatWide(n / 2, len - 1, more);
      if n < Pow(len) {
        assert FromNat(n, len) + Zeros(more) == [n % 2 == 1] + (FromNat(n / 2, len - 1) + Zeros(more));
      }
    }
  }

  function Pow(k: nat): nat { if k == 0 then 1 else 2 * Pow(k - 1) }

  lemma {:induction false} FromZero(len: nat)
    ensures FromNat(0, len) == Zeros(len)
  {
    if len > 0 {
      FromZero(len - 1);
      assert Zeros(len) == [false] + Zeros(len - 1);
    }
  }

  lemma IndexedWord(b: Byte)
    ensures FromNat(Index(b), 32) == ToWord(b)
  {
    NatRoundTrip(b);
    assert Pow(8) == 256;
    FromNatWide(Index(b), 8, 24);
  }

  /** Looking up the low byte of v advances v by eight bit steps. */
  lemma LookUp(t: array2<Word>, v: Word)
    requires IsTable(t)
    ensures Xor(t[0, Index(v[..8])], Shr(v, 8)) == Steps(8, v)
  {
    IndexedWord(v[..8]);
    OneByteStep(v);
  }

  lemma LookUpWord(t: array2<Word>, v: Word)
    requires IsTable(t)
    ensures Xor(Xor(Xor(t[3, Index(v[..8])], t[2, Index(v[8..16])]), t[1, Index(v[16..24])]), t[0, Index(v[24..])])
      == Steps(32, v)
  {
    hide Steps, Xor, FromNat, ToWord, Index;
    WordStep(v);
    IndexedWord(v[..8]);
    IndexedWord(v[8..16]);
    IndexedWord(v[16..24]);
    IndexedWord(v[24..]);
  }

  /** The shift register of make_crc_table, with its own polynomial variable. */
  method TableEntry(poly: Word, n: nat) returns (c: Word)
    requires poly == Poly()
    ensures c == Steps(8, FromNat(n, 32))
  {
    c := FromNat(n, 32);
    for k := 0 to 8
      invariant c == Steps(k, FromNat(n, 32))
    {
      StepsAdd(k, 1, FromNat(n, 32));
      c := if c[0] then Xor(poly, Shr(c, 1)) else Shr(c, 1);
    }
  }

  /** Assembling the exclusive-or pattern from the list of exponents. */
  method MakePoly() returns (poly: Word)
    ensures poly == Poly()
  {
    var p := [0, 1, 2, 4, 5, 7, 8, 10, 11, 12, 16, 22, 23, 26];
    poly := Zeros(32);
    for n := 0 to |p|
      invariant forall i :: 0 <= i < 32 ==> poly[i] == (31 - i in p[..n])
    {
      poly := poly[31 - p[n] := true];
    }
    assert p[..|p|] == p;
  }

  method MakeCrcTable() returns (t: array2<Word>)
    ensures IsTable(t)
  {
    hide Steps, FromNat;
    var poly := MakePoly();
    t := new Word[4, 256]((_, _) => Zeros(32));
    for n := 0 to 256
      invariant forall m :: 0 <= m < n ==> t[0, m] == Steps(8, FromNat(m, 32))
    {
      var c := TableEntry(poly, n);
      t[0, n] := c;
    }
    for n := 0 to 256
      invariant forall m :: 0 <= m < 256 ==> t[0, m] == Steps(8, FromNat(m, 32))
      invariant forall k, m :: 0 <= k < 4 && 0 <= m < n ==> t[k, m] == Steps(8 * k + 8, FromNat(m, 32))
    {
      FillColumn(t, n);
    }
  }

  /** Tables 1 to 3 at one byte value: each entry is the previous one followed by a zero byte. */
  method FillColumn(t: array2<Word>, n: nat)
    requires t.Length0 == 4 && t.Length1 == 256 && n < 256
    requires forall m :: 0 <= m < 256 ==> t[0, m] == Steps(8, FromNat(m, 32))
    modifies t
    ensures forall k, m :: 0 <= k < 4 && 0 <= m < 256 && (m != n || k == 0) ==> t[k, m] == old(t[k, m])
    ensures forall k :: 0 <= k < 4 ==> t[k, n] == Steps(8 * k + 8, FromNat(n, 32))
  {
    hide Steps, Xor, FromNat, Index;
    var c := t[0, n];
    for k := 1 to 4
      invariant c == Steps(8 * k, FromNat(n, 32))
      invariant forall j, m :: 0 <= j < 4 && 0 <= m < 256 && (m != n || j == 0) ==> t[j, m] == old(t[j, m])
      invariant forall j :: 0 <= j < k ==> t[j, n] == Steps(8 * j + 8, FromNat(n, 32))
    {
      IndexedWord(c[..8]);
      OneByteStep(c);
      StepsAdd(8 * k, 8, FromNat(n, 32));
      c := Xor(t[0, Index(c[..8])], Shr(c, 8));
      t[k, n] := c;
    }
  }

  /** DO1: xor the byte in, look the low byte up, shift the rest down. */
  function FeedByte(t: array2<Word>, c: Word, b: Byte): (r: Word)
    requires IsTable(t)
    reads t
    ensures r == Register(c, [b])
  {
    LookUp(t, Xor(c, ToWord(b)));
    FeedIsSteps(c, b);
    assert Shr(Xor(c, ToWord(b)), 8) == Shr(c, 8);
    Xor(t[0, Index(Xor(c, ToWord(b))[..8])], Shr(c, 8))
  }

  /** DOLIT4: xor a whole word in and look its four bytes up in four tables. */
  function FeedWord(t: array2<Word>, c: Word, b0: Byte, b1: Byte, b2: Byte, b3: Byte): (r: Word)
    requires IsTable(t)
    reads t
    ensures r == Register(c, [b0, b1, b2, b3])
  {
    var v := Xor(c, LoadWord(b0, b1, b2, b3));
    FourBytes(c, b0, b1, b2, b3);
    FeedIsSteps(c, LoadWord(b0, b1, b2, b3));
    assert ToWord(LoadWord(b0, b1, b2, b3)) == LoadWord(b0, b1, b2, b3);
    LookUpWord(t, v);
    Xor(Xor(Xor(t[3, Index(v[..8])], t[2, Index(v[8..16])]), t[1, Index(v[16..24])]), t[0, Index(v[24..])])
  }

  lemma Prefix(c: Word, buf: seq<Byte>, i: nat, more: seq<Byte>)
    requires i + |more| <= |buf| && buf[i..i + |more|] == more
    ensures Register(c, buf[..i + |more|]) == Register(Register(c, buf[..i]), more)
  {
    assert buf[..i + |more|] == buf[..i] + more;
    RegisterConcat(c, buf[..i], more);
  }

  lemma NothingFed(c: Word, buf: seq<Byte>)
    ensures Register(c, buf[..0]) == c
  {
  }

  /** The portable loop of crc32: eight look-ups per round, then the rest one by one. */
  method Crc32Bytes(t: array2<Word>, crc: Word, buf: seq<Byte>) returns (r: Word)
    requires IsTable(t)
    ensures r == Crc(crc, buf)
  {
    hide Register, FeedBits, IsTable, FeedByte, FeedWord;
    NothingFed(Not(crc), buf);
    var c, i := Not(crc), 0;
    while |buf| - i >= 8
      invariant 0 <= i <= |buf| && c == Register(Not(crc), buf[..i])
    {
      for k := 0 to 8
        invariant c == Register(Not(crc), buf[..i + k])
      {
        Prefix(Not(crc), buf, i + k, [buf[i + k]]);
        c := FeedByte(t, c, buf[i + k]);
      }
      i := i + 8;
    }
    c := TrailingBytes(t, c, buf, i, Not(crc));
    r := Not(c);
  }

  method TrailingBytes(t: array2<Word>, c0: Word, buf: seq<Byte>, from: nat, ghost start: Word) returns (c: Word)
    requires IsTable(t) && from <= |buf| && c0 == Register(start, buf[..from])
    ensures c == Register(start, buf)
  {
    hide Register, FeedBits, IsTable, FeedByte, FeedWord;
    c := c0;
    var i := from;
    while i < |buf|
      invariant 0 <= i <= |buf| && c == Register(start, buf[..i])
    {
      Prefix(start, buf, i, [buf[i]]);
      c := FeedByte(t, c, buf[i]);
      i := i + 1;
    }
    assert buf[..i] == buf;
  }

  method LeadingBytes(t: array2<Word>, c0: Word, buf: seq<Byte>, address: nat) returns (c: Word, i: nat)
    requires IsTable(t)
    ensures i <= |buf| && c == Register(c0, buf[..i])
    ensures i < |buf| ==> (address + i) % 4 == 0
  {
    hide Register, FeedBits, IsTable, FeedByte, FeedWord;
    NothingFed(c0, buf);
    c, i := c0, 0;
    while i < |buf| && (address + i) % 4 != 0
      invariant 0 <= i <= |buf| && c == Register(c0, buf[..i])
    {
      Prefix(c0, buf, i, [buf[i]]);
      c := FeedByte(t, c, buf[i]);
      i := i + 1;
    }
  }

  method FeedWordAt(t: array2<Word>, c: Word, buf: seq<Byte>, i: nat, ghost start: Word) returns (r: Word)
    requires IsTable(t) && i + 4 <= |buf| && c == Register(start, buf[..i])
    ensures r == Register(start, buf[..i + 4])
  {
    hide Register, FeedBits, IsTable;
    Prefix(start, buf, i, [buf[i], buf[i + 1], buf[i + 2], buf[i + 3]]);
    r := FeedWord(t, c, buf[i], buf[i + 1], buf[i + 2], buf[i + 3]);
  }

  /** crc32_little: bytes up to a word boundary, words (eight per round, then singly), trailing bytes.
      `address` is where the buffer starts. */
  method Crc32Little(t: array2<Word>, crc: Word, buf: seq<Byte>, address: nat) returns (r: Word)
    requires IsTable(t)
    ensures r == Crc(crc, buf)
  {
    hide Register, FeedBits, IsTable, FeedByte, FeedWord;
    var c, i := LeadingBytes(t, Not(crc), buf, address);
    while |buf| - i >= 32
      invariant 0 <= i <= |buf| && c == Register(Not(crc), buf[..i])
    {
      for k := 0 to 8
        invariant c == Register(Not(crc), buf[..i + 4 * k])
      {
        c := FeedWordAt(t, c, buf, i + 4 * k, Not(crc));
      }
      i := i + 32;
    }
    while |buf| - i >= 4
      invariant 0 <= i <= |buf| && c == Register(Not(crc), buf[..i])
    {
      c := FeedWordAt(t, c, buf, i, Not(crc));
      i := i + 4;
    }
    c := TrailingBytes(t, c, buf, i, Not(crc));
    r := Not(c);
  }

  /** The entry point: a null buffer asks for the initial value, anything else is summed word by word. */
  method Crc32Entry(t: array2<Word>, crc: Word, buf: Option<seq<Byte>>, address: nat) returns (r: Word)
    requires IsTable(t)
    ensures r == if buf.None? then ZERO else Crc(crc, buf.value)
  {
    if buf.None? {
      return ZERO;
    }
    r := Crc32Little(t, crc, buf.value, address);
  }
}
