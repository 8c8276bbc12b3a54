/** Adler-32 of usr/klibc/zlib/adler32.c against the per-byte definition of RFC 1950, section 8.2. */
module Adler32 {
  import opened Powers
  import opened Wrappers

  const BASE: nat := 65521
  const NMAX: nat := 5552

  type byte = b: int | 0 <= b < 256
  /** Assigning to a u32 obliges the verifier to show that the sum did not overflow. */
  type u32 = x: int | 0 <= x < 0x1_0000_0000

  /** The two running sums of a checksum. */
  datatype Sums = Sums(s1: nat, s2: nat) {
    predicate Proper() { s1 < BASE && s2 < BASE }
    function Pack(): nat { s1 + 65536 * s2 }
  }

  function Unpack(adler: u32): Sums { Sums(adler % 65536, adler / 65536) }

  /** RFC 1950: both sums are taken modulo 65521 after every byte. */
  function Spec(s: Sums, buf: seq<byte>): Sums
    decreases |buf|
  {
    if buf == [] then s else Spec(SpecStep(s, buf[0]), buf[1..])
  }

  function SpecStep(s: Sums, b: byte): (t: Sums)
    ensures t.Proper()
  {
    var s1 := (s.s1 + b) % BASE;
    Sums(s1, (s.s2 + s1) % BASE)
  }

  // ---- sums without reduction

  function Sum(buf: seq<byte>): nat { if buf == [] then 0 else Sum(buf[..|buf| - 1]) + buf[|buf| - 1] }

  /** The second sum when the first starts at zero. */
  function Weighted(buf: seq<byte>): nat {
    if buf == [] then 0 else Weighted(buf[..|buf| - 1]) + Sum(buf)
  }

  function Raw(s: Sums, buf: seq<byte>): Sums {
    Sums(s.s1 + Sum(buf), s.s2 + |buf| * s.s1 + Weighted(buf))
  }

  function Reduced(s: Sums): Sums { Sums(s.s1 % BASE, s.s2 % BASE) }

  /** One more byte: the step that the source performs everywhere. */
  lemma RawStep(s: Sums, buf: seq<byte>, i: nat)
    requires i < |buf|
    ensures var (t, t') := (Raw(s, buf[..i]), Raw(s, buf[..i + 1]));
      t'.s1 == t.s1 + buf[i] && t'.s2 == t.s2 + t'.s1
  {
    assert buf[..i + 1][..i] == buf[..i];
    assert (i + 1) * s.s1 == i * s.s1 + s.s1;
  }

  /** How large the sums can get after n bytes without reduction. */
  lemma {:induction false} RawBound(s: Sums, buf: seq<byte>)
    ensures Sum(buf) <= 255 * |buf|
    ensures 2 * Weighted(buf) <= 255 * |buf| * (|buf| + 1)
  {
    if buf != [] {
      var n, front := |buf|, buf[..|buf| - 1];
      RawBound(s, front);
      assert 255 * n * (n + 1) == 255 * (n - 1) * n + 2 * (255 * n);
    }
  }

  lemma ShortSum(s: Sums, buf: seq<byte>)
    requires |buf| < 16 && s.s1 < 65536
    ensures Raw(s, buf).s1 < 2 * BASE
  {
    RawBound(s, buf);
  }

  /** Up to NMAX bytes fit, from any 16-bit start values. */
  lemma NoOverflow(s: Sums, buf: seq<byte>)
    requires |buf| <= NMAX && s.s1 < 65536 && s.s2 < 65536
    ensures Raw(s, buf).s1 < 0x1_0000_0000 && Raw(s, buf).s2 < 0x1_0000_0000
  {
    var n := |buf|;
    RawBound(s, buf);
    MulMonotone(n, NMAX, s.s1, 65535);
    MulMonotone(n, NMAX, n + 1, NMAX + 1);
    assert 255 * n * (n + 1) == 255 * (n * (n + 1));
  }

  lemma MulMonotone(a: nat, a': nat, b: nat, b': nat)
    requires a <= a' && b <= b'
    ensures a * b <= a' * b'
  {
    assert (a' - a) * b' >= 0 && a * (b' - b) >= 0;
  }

  /** NMAX is the largest block for which the source's bound holds. */
  lemma NmaxIsTight(n: nat)
    ensures 255 * (n * (n + 1)) / 2 + (n + 1) * (BASE - 1) <= 0xFFFF_FFFF <==> n <= NMAX
  {
    if n <= NMAX {
      MulMonotone(n, NMAX, n + 1, NMAX + 1);
    } else {
      MulMonotone(NMAX + 1, n, NMAX + 2, n + 1);
    }
  }

  // ---- deferring the reduction changes nothing

  lemma {:induction false} RawConcat(s: Sums, a: seq<byte>, b: seq<byte>)
    ensures Raw(s, a + b) == Raw(Raw(s, a), b)
    decreases |b|
  {
    if b == [] {
      assert a + b == a;
    } else {
      var n := |b| - 1;
      RawConcat(s, a, b[..n]);
      assert (a + b)[..|a| + n] == a + b[..n] && b[..n + 1] == b && (a + b)[..|a| + n + 1] == a + b;
      RawStep(s, a + b, |a| + n);
      RawStep(Raw(s, a), b, n);
    }
  }

  lemma Congruent(x: int, x': int, y: int, y': int)
    requires x % BASE == x' % BASE && y % BASE == y' % BASE
    ensures (x + y) % BASE == (x' + y') % BASE
  {
  }

  lemma StepsCongruent(t: Sums, u: Sums, b: byte)
    requires Reduced(t) == Reduced(u)
    ensures Reduced(Sums(t.s1 + b, t.s2 + (t.s1 + b))) == Reduced(Sums(u.s1 + b, u.s2 + (u.s1 + b)))
  {
    Congruent(t.s1, u.s1, b, b);
    Congruent(t.s2, u.s2, t.s1 + b, u.s1 + b);
  }

  lemma RawNone(s: Sums)
    ensures Raw(s, []) == s
  {
  }

  lemma ReducedTwice(s: Sums)
    ensures Reduced(Reduced(s)) == Reduced(s)
  {
  }

  lemma RawOne(s: Sums, b: byte)
    ensures Raw(s, [b]) == Sums(s.s1 + b, s.s2 + s.s1 + b)
  {
    RawStep(s, [b], 0);
    assert [b][..0] == [] && [b][..1] == [b];
  }

  lemma SpecStepReduces(s: Sums, b: byte)
    ensures SpecStep(s, b) == Reduced(Raw(s, [b]))
  {
    hide Raw;
    RawOne(s, b);
    Congruent((s.s1 + b) % BASE, s.s1 + b, s.s2, s.s2);
  }

  /** Reducing in between does not change the reduced result. */
  lemma {:induction false} ReduceEarly(s: Sums, buf: seq<byte>)
    ensures Reduced(Raw(Reduced(s), buf)) == Reduced(Raw(s, buf))
    decreases |buf|
  {
    hide Raw, Reduced;
    if buf == [] {
      RawNone(s);
      RawNone(Reduced(s));
      ReducedTwice(s);
    } else {
      var n := |buf| - 1;
      var front := buf[..n];
      ReduceEarly(s, front);
      assert buf[..n + 1] == buf;
      RawStep(s, buf, n);
      RawStep(Reduced(s), buf, n);
      StepsCongruent(Raw(Reduced(s), front), Raw(s, front), buf[n]);
    }
  }

  /** The deferred sums, reduced at the end, are the sums reduced after every byte. */
  lemma {:induction false} DeferredIsSpec(s: Sums, buf: seq<byte>)
    ensures Reduced(Spec(s, buf)) == Reduced(Raw(s, buf))
    ensures buf != [] || s.Proper() ==> Spec(s, buf).Proper()
    decreases |buf|
  {
    if buf == [] {
      RawNone(s);
    } else {
      hide Raw, Reduced;
      var b, rest := buf[0], buf[1..];
      var t := SpecStep(s, b);
      SpecStepReduces(s, b);
      DeferredIsSpec(t, rest);
      assert buf == [b] + rest;
      RawConcat(s, [b], rest);
      ReduceEarly(Raw(s, [b]), rest);
    }
  }

  /** Checksums compose over concatenation. */
  lemma {:induction false} SpecConcat(s: Sums, a: seq<byte>, b: seq<byte>)
    ensures Spec(s, a + b) == Spec(Spec(s, a), b)
    decreases |a|
  {
    if a == [] {
      assert a + b == b;
    } else {
      assert (a + b)[1..] == a[1..] + b;
      SpecConcat(SpecStep(s, a[0]), a[1..], b);
    }
  }

  // ---- the source's function

  /** Adding the bytes buf[from..to] to both sums; the word-sized sums must have room for them. */
  method AddBytes(adler: u32, sum2: u32, buf: seq<byte>, from: nat, to: nat) returns (a: u32, b: u32)
    requires from <= to <= |buf| && to - from <= NMAX && adler < 65536 && sum2 < 65536
    ensures Sums(a, b) == Raw(Sums(adler, sum2), buf[from..to])
  {
    a, b := adler, sum2;
    ghost var s, block := Sums(adler, sum2), buf[from..to];
    for i := from to to
      invariant Sums(a, b) == Raw(s, block[..i - from])
    {
      RawStep(s, block, i - from);
      NoOverflow(s, block[..i - from + 1]);
      a := a + buf[i];
      b := b + a;
    }
    assert block[..to - from] == block;
  }

  /** The single-byte fast path leaves its second half one BASE too large in exactly this case. */
  predicate FastPathOverruns(s: Sums, len: nat, b: byte) {
    len == 1 && s.s2 + (s.s1 + b) % BASE >= 2 * BASE
  }

  /** adler32: for every 32-bit start value both halves are congruent to the specification, and they are
      equal to it except when the single-byte path meets an improper second half. */
  method Adler32(adler: u32, buf: Option<seq<byte>>, len: nat) returns (r: u32)
    requires if buf.Some? then len == |buf.value| else len != 1
    ensures buf.None? ==> r == 1
    ensures buf.Some? ==>
      var (s, t) := (Unpack(adler), Reduced(Spec(Unpack(adler), buf.value)));
      r == t.Pack() + if len == 1 && FastPathOverruns(s, len, buf.value[0]) then 65536 * BASE else 0
  {
    hide Spec, Raw, Reduced, FastPathOverruns;
    var sum2: u32, sum1: u32 := adler / 65536 % 65536, adler % 65536;
    if buf.Some? {
      DeferredIsSpec(Unpack(adler), buf.value);
    }
    if len == 1 {
      assert buf.value == [buf.value[0]];
      sum1, sum2 := AddOne(sum1, sum2, buf.value[0]);
      return sum1 + 65536 * sum2;
    }
    if buf.None? {
      return 1;
    }
    if len < 16 {
      sum1, sum2 := AddFew(sum1, sum2, buf.value);
      return sum1 + 65536 * sum2;
    }
    sum1, sum2 := AddBlocks(sum1, sum2, buf.value);
    r := sum1 + 65536 * sum2;
  }

  /** On a proper checksum adler32 is exactly the specification, and yields a proper checksum again. */
  lemma ProperStaysExact(adler: u32, buf: seq<byte>)
    requires Unpack(adler).Proper()
    ensures buf != [] ==> !FastPathOverruns(Unpack(adler), |buf|, buf[0])
    ensures Reduced(Spec(Unpack(adler), buf)) == Spec(Unpack(adler), buf) && Spec(Unpack(adler), buf).Proper()
    ensures Unpack(Spec(Unpack(adler), buf).Pack()) == Spec(Unpack(adler), buf)
  {
    hide Raw, Spec;
    DeferredIsSpec(Unpack(adler), buf);
    UnpackPack(Spec(Unpack(adler), buf));
  }

  lemma UnpackPack(s: Sums)
    requires s.Proper()
    ensures s.Pack() < 0x1_0000_0000 && Unpack(s.Pack()) == s && Reduced(s) == s
  {
  }

  method AddOne(adler: u32, sum2: u32, c: byte) returns (a: u32, b: u32)
    requires adler < 65536 && sum2 < 65536
    ensures var t := Reduced(Raw(Sums(adler, sum2), [c]));
      a == t.s1 && b == t.s2 + if FastPathOverruns(Sums(adler, sum2), 1, c) then BASE else 0
    ensures a < 65536 && b < 65536
  {
    hide Raw;
    RawOne(Sums(adler, sum2), c);
    a, b := adler + c, sum2;
    if a >= BASE { a := a - BASE; }
    b := b + a;
    if b >= BASE { b := b - BASE; }
  }

  method AddFew(adler: u32, sum2: u32, buf: seq<byte>) returns (a: u32, b: u32)
    requires adler < 65536 && sum2 < 65536 && |buf| < 16
    ensures Sums(a, b) == Reduced(Raw(Sums(adler, sum2), buf)) && Sums(a, b).Proper()
  {
    hide Raw;
    a, b := AddBytes(adler, sum2, buf, 0, |buf|);
    assert buf[0..|buf|] == buf;
    assert Sums(a, b) == Raw(Sums(adler, sum2), buf);
    ShortSum(Sums(adler, sum2), buf);
    if a >= BASE { a := a - BASE; }
    b := b % BASE;
  }

  /** The long path: whole NMAX blocks, then the rest, each followed by one reduction. */
  method AddBlocks(adler: u32, sum2: u32, buf: seq<byte>) returns (a: u32, b: u32)
    requires adler < 65536 && sum2 < 65536 && |buf| >= 16
    ensures Sums(a, b) == Reduced(Raw(Sums(adler, sum2), buf)) && Sums(a, b).Proper()
  {
    hide Raw, Reduced;
    a, b := adler, sum2;
    var i := 0;
    ghost var s := Sums(adler, sum2);
    RawNone(s);
    assert buf[..0] == [];
    while |buf| - i >= NMAX
      invariant 0 <= i <= |buf| && a < 65536 && b < 65536
      invariant Reduced(Sums(a, b)) == Reduced(Raw(s, buf[..i]))
      invariant i > 0 ==> Sums(a, b).Proper()
    {
      a, b := AddReduced(a, b, buf, i, i + NMAX, s);
      i := i + NMAX;
    }
    if i < |buf| {
      a, b := AddReduced(a, b, buf, i, |buf|, s);
    }
    assert buf[..|buf|] == buf;
    ReducedProper(Sums(a, b));
  }

  lemma ReducedProper(s: Sums)
    requires s.Proper()
    ensures Reduced(s) == s
  {
  }

  method AddReduced(adler: u32, sum2: u32, buf: seq<byte>, from: nat, to: nat, ghost s: Sums)
    returns (a: u32, b: u32)
    requires from <= to <= |buf| && to - from <= NMAX && adler < 65536 && sum2 < 65536
    requires Reduced(Sums(adler, sum2)) == Reduced(Raw(s, buf[..from]))
    ensures Sums(a, b) == Reduced(Raw(s, buf[..to])) == Reduced(Sums(a, b)) && Sums(a, b).Proper()
  {
    hide Raw;
    a, b := AddBytes(adler, sum2, buf, from, to);
    ReducedTwice(Sums(a, b));
    a, b := a % BASE, b % BASE;
    assert buf[..to] == buf[..from] + buf[from..to];
    RawConcat(s, buf[..from], buf[from..to]);
    ReduceEarly(Raw(s, buf[..from]), buf[from..to]);
    ReduceEarly(Sums(adler, sum2), buf[from..to]);
  }

  lemma SpecAt(s: Sums, m: seq<byte>, i: nat, t: Sums)
    requires i < |m| && SpecStep(s, m[i]) == t
    ensures Spec(s, m[i..]) == Spec(t, m[i + 1..])
  {
    hide SpecStep;
    assert m[i..][1..] == m[i + 1..];
  }

  /** The checksum of the nine letters of "Wikipedia". */
  lemma KnownChecksum(m: seq<byte>)
    requires m == [87, 105, 107, 105, 112, 101, 100, 105, 97]
    ensures Spec(EMPTY, m).Pack() == 0x11E6_0398
  {
    hide Spec;
    assert m[0..] == m;
    SpecAt(Sums(1, 0), m, 0, Sums(88, 88));
    SpecAt(Sums(88, 88), m, 1, Sums(193, 281));
    SpecAt(Sums(193, 281), m, 2, Sums(300, 581));
    SpecAt(Sums(300, 581), m, 3, Sums(405, 986));
    SpecAt(Sums(405, 986), m, 4, Sums(517, 1503));
    SpecAt(Sums(517, 1503), m, 5, Sums(618, 2121));
    SpecAt(Sums(618, 2121), m, 6, Sums(718, 2839));
    SpecAt(Sums(718, 2839), m, 7, Sums(823, 3662));
    SpecAt(Sums(823, 3662), m, 8, Sums(920, 4582));
    SpecNothing(Sums(920, 4582), m);
  }

  lemma SpecNothing(s: Sums, m: seq<byte>)
    ensures Spec(s, m[|m|..]) == s
  {
  }

  lemma OverrunExample()
    ensures FastPathOverruns(Unpack(0xFFFF_FFF0), 1, 0)
  {
  }

  // ---- combining two checksums

  const EMPTY: Sums := Sums(1, 0)

  /** The representative of x modulo BASE in 1..BASE, which adler32_combine produces. */
  function Representative(x: int): (r: nat)
    ensures 1 <= r <= BASE
  {
    if x % BASE == 0 then BASE else x % BASE
  }

  lemma MulCongruent(n: nat, m: nat)
    ensures (n % BASE * m) % BASE == (n * m) % BASE
  {
    var q := n / BASE;
    assert n * m == n % BASE * m + (q * m) * BASE by { assert n == q * BASE + n % BASE; }
    AddMultiple(n % BASE * m, q * m);
  }

  lemma AddMultiple(x: int, k: int)
    ensures (x + k * BASE) % BASE == x % BASE
  {
  }

  /** The two sums that adler32_combine forms before it brings them down. */
  function FirstTotal(s: Sums, t: Sums): int { s.s1 + t.s1 + BASE - 1 }

  function SecondTotal(s: Sums, t: Sums, len2: nat): int {
    len2 % BASE * s.s1 % BASE + s.s2 + t.s2 + BASE - len2 % BASE
  }

  /** What the conditional subtractions leave of a total: its representative, or one BASE more if the total is
      above the limit up to which they suffice. */
  function Folded(total: int, limit: int): nat { Representative(total) + if total > limit then BASE else 0 }

  function Combined(s: Sums, t: Sums, len2: nat): Sums {
    Sums(Folded(FirstTotal(s, t), 3 * BASE), Folded(SecondTotal(s, t, len2), 4 * BASE))
  }

  /** a | (b << 16) in 32 bits, for halves of up to 17 bits: the top bit of b is lost, that of a falls on the
      lowest bit of b. */
  function Join(a: nat, b: nat): (r: nat)
    requires a < 0x2_0000 && b < 0x2_0000
    ensures r < 0x1_0000_0000
    ensures a < 65536 && b < 65536 ==> r == Sums(a, b).Pack()
  {
    a % 65536 + 65536 * (b % 65536 + if a >= 65536 && b % 2 == 0 then 1 else 0)
  }

  /** Bit i of x. */
  predicate Bit(x: nat, i: nat) { if i == 0 then x % 2 == 1 else Bit(x / 2, i - 1) }

  lemma HalfOfMultiple(x: nat, k: nat, n: nat)
    requires n > 0
    ensures (x + k * Pow2(n)) / 2 == x / 2 + k * Pow2(n - 1) && (x + k * Pow2(n)) % 2 == x % 2
  {
    var y := k * Pow2(n - 1);
    assert k * Pow2(n) == 2 * y;
  }

  lemma {:induction false} BitOfMultiple(x: nat, k: nat, i: nat, n: nat)
    requires i < n
    ensures Bit(x + k * Pow2(n), i) == Bit(x, i)
    decreases i
  {
    hide Pow2;
    HalfOfMultiple(x, k, n);
    if i > 0 {
      BitOfMultiple(x / 2, k, i - 1, n - 1);
    }
  }

  lemma {:induction false} BitAbove(x: nat, k: nat, i: nat, n: nat)
    requires x < Pow2(n) && i >= n
    ensures Bit(x + k * Pow2(n), i) == Bit(k, i - n)
    decreases n
  {
    hide Pow2;
    Pow2Zero();
    if n > 0 {
      HalfOfMultiple(x, k, n);
      Pow2Half(n);
      BitAbove(x / 2, k, i - 1, n - 1);
    }
  }

  lemma SixteenBits()
    ensures Pow2(16) == 65536
  {
    assert Pow2(8) == 256;
    Pow2Add(8, 8);
  }

  /** Join is the disjunction of the bits of a and the bits of b sixteen places up. */
  lemma JoinBits(a: nat, b: nat, i: nat)
    requires a < 0x2_0000 && b < 0x2_0000 && i < 32
    ensures Bit(Join(a, b), i) <==> Bit(a, i) || (i >= 16 && Bit(b, i - 16))
  {
    hide Bit, Pow2;
    var low, c := a % 65536, b % 65536 + if a >= 65536 && b % 2 == 0 then 1 else 0;
    SixteenBits();
    if i < 16 {
      BitOfMultiple(low, c, i, 16);
      BitOfMultiple(low, a / 65536, i, 16);
    } else {
      BitAbove(low, c, i, 16);
      BitAbove(low, a / 65536, i, 16);
      TopBit(a / 65536, i - 16);
      OrLowBit(b, a >= 65536, i - 16);
    }
  }

  lemma {:induction false} TopBit(t: nat, i: nat)
    requires t <= 1
    ensures Bit(t, i) <==> t == 1 && i == 0
    decreases i
  {
    if i > 0 {
      TopBit(0, i - 1);
    }
  }

  lemma OrLowBit(b: nat, t: bool, i: nat)
    requires i < 16
    ensures Bit(b % 65536 + if t && b % 2 == 0 then 1 else 0, i) <==> Bit(b, i) || (t && i == 0)
  {
    hide Pow2, Bit;
    var c := b % 65536;
    var d := c + if t && b % 2 == 0 then 1 else 0;
    SixteenBits();
    BitOfMultiple(c, b / 65536, i, 16);
    BitUnfold(c, i);
    BitUnfold(d, i);
  }

  lemma BitUnfold(x: nat, i: nat)
    ensures Bit(x, i) == if i == 0 then x % 2 == 1 else Bit(x / 2, i - 1)
  {
  }

  lemma HalfBounds(s: Sums, t: Sums, len2: nat)
    requires s.s1 < 65536 && s.s2 < 65536 && t.s1 < 65536 && t.s2 < 65536
    ensures 1 <= FirstTotal(s, t) < 4 * BASE && 1 <= SecondTotal(s, t, len2) < 5 * BASE
    ensures Combined(s, t, len2).s1 < 0x2_0000 && Combined(s, t, len2).s2 < 0x2_0000
  {
    hide Representative;
    RemBounds(len2, s.s1);
  }

  lemma RemBounds(len2: nat, m: nat)
    ensures 0 <= len2 % BASE < BASE && 0 <= len2 % BASE * m && 0 <= len2 % BASE * m % BASE < BASE
  {
  }

  /** adler32_combine, for every pair of 32-bit words. */
  method Combine(adler1: u32, adler2: u32, len2: nat) returns (r: u32)
    ensures var (s, t) := (Unpack(adler1), Unpack(adler2));
      && Combined(s, t, len2).s1 < 0x2_0000 && Combined(s, t, len2).s2 < 0x2_0000
      && r == Join(Combined(s, t, len2).s1, Combined(s, t, len2).s2)
  {
    hide Representative, Join, FirstTotal, SecondTotal, Folded;
    ghost var s, t := Unpack(adler1), Unpack(adler2);
    HalfBounds(s, t, len2);
    var sum1, sum2 := Totals(adler1 % 65536, adler1 / 65536 % 65536, adler2 % 65536, adler2 / 65536 % 65536, len2);
    sum1, sum2 := FoldSums(sum1, sum2);
    r := Join(sum1, sum2);
  }

  method Totals(lo1: u32, hi1: u32, lo2: u32, hi2: u32, len2: nat) returns (sum1: u32, sum2: u32)
    requires lo1 < 65536 && hi1 < 65536 && lo2 < 65536 && hi2 < 65536
    ensures sum1 == FirstTotal(Sums(lo1, hi1), Sums(lo2, hi2)) && sum2 == SecondTotal(Sums(lo1, hi1), Sums(lo2, hi2), len2)
  {
    var rem: u32 := len2 % BASE;
    sum1 := lo1;
    MulBound(rem, sum1);
    sum2 := rem * sum1;
    sum2 := sum2 % BASE;
    sum1 := sum1 + lo2 + BASE - 1;
    sum2 := sum2 + hi1 + hi2 + BASE - rem;
  }

  /** The final conditional subtractions. */
  method FoldSums(sum1: u32, sum2: u32) returns (a: u32, b: u32)
    requires 1 <= sum1 < 4 * BASE && 1 <= sum2 < 5 * BASE
    ensures a == Folded(sum1, 3 * BASE) && b == Folded(sum2, 4 * BASE)
  {
    hide Folded;
    a, b := sum1, sum2;
    if a > BASE { a := a - BASE; }
    if a > BASE { a := a - BASE; }
    if b > 2 * BASE { b := b - 2 * BASE; }
    if b > BASE { b := b - BASE; }
    FoldedIs(sum1, 3 * BASE);
    FoldedIs(sum2, 4 * BASE);
  }

  lemma FoldedIs(total: int, limit: int)
    requires 1 <= total < 5 * BASE
    ensures Folded(total, limit) == (if total > limit then BASE else 0) +
      if total <= BASE then total else if total <= 2 * BASE then total - BASE
      else if total <= 3 * BASE then total - 2 * BASE else if total <= 4 * BASE then total - 3 * BASE else total - 4 * BASE
  {
  }

  /** The halves keep to their sixteen bits if and only if both totals stay below these bounds. */
  lemma HalvesApart(s: Sums, t: Sums, len2: nat)
    requires s.s1 < 65536 && s.s2 < 65536 && t.s1 < 65536 && t.s2 < 65536
    ensures var c := Combined(s, t, len2);
      c.s1 < 65536 && c.s2 < 65536 <==> s.s1 + t.s1 < 131058 && SecondTotal(s, t, len2) < 3 * BASE + 65536
  {
    hide Folded, SecondTotal;
    HalfBounds(s, t, len2);
    FoldedIs(FirstTotal(s, t), 3 * BASE);
    FoldedIs(SecondTotal(s, t, len2), 4 * BASE);
  }

  /** An input on which they do not: the bits of the two halves overlap. */
  lemma OverlapExample()
    ensures Combined(Sums(65535, 0), Sums(65535, 0), 0) == Sums(65548, BASE)
  {
  }

  /** The sums of a concatenation, before reduction, from those of its parts. */
  function ConcatFirst(s: Sums, t: Sums): int { s.s1 + t.s1 - 1 }

  function ConcatSecond(s: Sums, t: Sums, len2: nat): int { len2 * s.s1 + s.s2 + t.s2 - len2 }

  /** Checksums, whose halves are below BASE, never come near those bounds. */
  lemma ProperCombined(s: Sums, t: Sums, len2: nat)
    requires s.Proper() && t.Proper()
    ensures Combined(s, t, len2) == Sums(Representative(ConcatFirst(s, t)), Representative(ConcatSecond(s, t, len2)))
  {
    hide Representative, FirstTotal, SecondTotal, ConcatFirst, ConcatSecond;
    FirstTotalMeans(s, t);
    SecondTotalMeans(s, t, len2);
  }

  lemma SameRepresentative(x: int, y: int)
    requires x % BASE == y % BASE
    ensures Representative(x) == Representative(y)
  {
  }

  lemma FirstTotalMeans(s: Sums, t: Sums)
    requires s.Proper() && t.Proper()
    ensures FirstTotal(s, t) <= 3 * BASE && Representative(FirstTotal(s, t)) == Representative(ConcatFirst(s, t))
  {
    hide Representative;
    AddMultiple(s.s1 + t.s1 - 1, 1);
    SameRepresentative(FirstTotal(s, t), s.s1 + t.s1 - 1);
  }

  lemma MulBound(a: nat, b: nat)
    requires a < BASE && b < 65536
    ensures a * b < 0x1_0000_0000
  {
    MulMonotone(a, BASE - 1, b, 65535);
  }

  lemma SecondTotalMeans(s: Sums, t: Sums, len2: nat)
    requires s.Proper() && t.Proper()
    ensures SecondTotal(s, t, len2) <= 4 * BASE
    ensures Representative(SecondTotal(s, t, len2)) == Representative(ConcatSecond(s, t, len2))
  {
    hide Representative;
    var rem := len2 % BASE;
    RemBounds(len2, s.s1);
    ProductCongruent(len2, s.s1, rem);
    Congruent(rem * s.s1 % BASE + (BASE - rem), len2 * s.s1 - len2, s.s2 + t.s2, s.s2 + t.s2);
    SameRepresentative(SecondTotal(s, t, len2), len2 * s.s1 + s.s2 + t.s2 - len2);
    assert rem == 0 ==> rem * s.s1 % BASE == 0;
  }

  lemma ProductCongruent(n: nat, m: nat, rem: nat)
    requires rem == n % BASE
    ensures (rem * m % BASE + (BASE - rem)) % BASE == (n * m - n) % BASE
  {
    MulCongruent(n, m);
    Congruent(rem * m % BASE, n * m, BASE - rem, 0 - n);
  }

  /** The checksum of a whole message, as zlib's callers compute it. */
  method Checksum(buf: seq<byte>) returns (r: u32)
    ensures r == Spec(EMPTY, buf).Pack() && Unpack(r) == Spec(EMPTY, buf) && Unpack(r).Proper()
  {
    hide Spec, Reduced, FastPathOverruns;
    ProperStaysExact(1, buf);
    r := Adler32(1, Some(buf), |buf|);
  }

  /** Sums of a message that starts from other sums than those of the empty message. */
  lemma RawShift(s: Sums, b: seq<byte>)
    ensures Raw(s, b).s1 == Raw(EMPTY, b).s1 + (s.s1 - 1)
    ensures Raw(s, b).s2 == Raw(EMPTY, b).s2 + (|b| * s.s1 + s.s2 - |b|)
  {
  }

  lemma SpecCongruent(s: Sums, b: seq<byte>)
    ensures Spec(s, b).s1 % BASE == Raw(s, b).s1 % BASE && Spec(s, b).s2 % BASE == Raw(s, b).s2 % BASE
  {
    hide Spec, Raw;
    DeferredIsSpec(s, b);
  }

  /** The sums of a concatenation from the sums of its parts. */
  lemma ConcatSums(a: seq<byte>, b: seq<byte>)
    ensures var (s, t, u) := (Spec(EMPTY, a), Spec(EMPTY, b), Spec(EMPTY, a + b));
      && Representative(u.s1) == Representative(ConcatFirst(s, t))
      && Representative(u.s2) == Representative(ConcatSecond(s, t, |b|))
  {
    hide Spec, Raw, Representative;
    var s, t := Spec(EMPTY, a), Spec(EMPTY, b);
    SpecConcat(EMPTY, a, b);
    SpecCongruent(s, b);
    SpecCongruent(EMPTY, b);
    RawShift(s, b);
    ConcatCongruent(Raw(s, b).s1, Raw(EMPTY, b).s1, t.s1, s.s1 - 1);
    ConcatCongruent(Raw(s, b).s2, Raw(EMPTY, b).s2, t.s2, |b| * s.s1 + s.s2 - |b|);
    SameRepresentative(Spec(s, b).s1, ConcatFirst(s, t));
    SameRepresentative(Spec(s, b).s2, ConcatSecond(s, t, |b|));
  }

  lemma ConcatCongruent(x: int, y: int, t: int, d: int)
    requires x == y + d && y % BASE == t % BASE
    ensures x % BASE == (t + d) % BASE
  {
    Congruent(y, t, d, d);
  }

  lemma WhenRepresented(u: Sums)
    requires u.Proper()
    ensures Sums(Representative(u.s1), Representative(u.s2)).Pack() == u.Pack() <==> u.s1 != 0 && u.s2 != 0
  {
  }

  /** adler32_combine of the checksums of A and B: each half is the half of the checksum of A ++ B, with
      65521 in place of 0.  Hence it is the checksum of A ++ B if and only if no half of that is 0. */
  method CombineOfParts(a: seq<byte>, b: seq<byte>) returns (r: u32)
    ensures var u := Spec(EMPTY, a + b);
      && u.Proper()
      && r == Sums(Representative(u.s1), Representative(u.s2)).Pack()
      && (r == u.Pack() <==> u.s1 != 0 && u.s2 != 0)
  {
    hide Spec, Representative, Raw, Reduced, Unpack, Combined, Join;
    var adler1 := Checksum(a);
    var adler2 := Checksum(b);
    r := Combine(adler1, adler2, |b|);
    PartsCombined(a, b);
  }

  lemma PartsCombined(a: seq<byte>, b: seq<byte>)
    ensures Spec(EMPTY, a).Proper() && Spec(EMPTY, b).Proper()
    ensures var (c, u) := (Combined(Spec(EMPTY, a), Spec(EMPTY, b), |b|), Spec(EMPTY, a + b));
      && u.Proper() && c.s1 < 65536 && c.s2 < 65536
      && Join(c.s1, c.s2) == Sums(Representative(u.s1), Representative(u.s2)).Pack()
      && (Join(c.s1, c.s2) == u.Pack() <==> u.s1 != 0 && u.s2 != 0)
  {
    hide Spec, Representative, Raw, Combined, Join, ConcatFirst, ConcatSecond;
    var s, t, u := Spec(EMPTY, a), Spec(EMPTY, b), Spec(EMPTY, a + b);
    SpecProper(a);
    SpecProper(b);
    SpecProper(a + b);
    ProperCombined(s, t, |b|);
    ConcatSums(a, b);
    WhenRepresented(u);
  }

  lemma SpecProper(a: seq<byte>)
    ensures Spec(EMPTY, a).Proper()
  {
    hide Spec, Raw;
    DeferredIsSpec(EMPTY, a);
  }

  /** The smallest case in which it is not: both parts empty. */
  lemma CombineOfEmpty()
    ensures Spec(EMPTY, [] + []).Pack() == 1
    ensures Sums(Representative(1), Representative(0)).Pack() == 0xFFF1_0001
  {
  }
}
