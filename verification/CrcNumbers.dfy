/** The CRC-32 register as a number: the polynomial pattern of usr/klibc/zlib/crc32.c, its shift register in machine
    arithmetic, and the check value of the CRC. */
module CrcNumbers {
  import opened Crc32

  /** The number whose bits these are, least significant first. */
  function Num(b: Bits): bv32 { if b == [] then 0 else Join(b[0], Num(b[1..])) }

  function Join(x: bool, p: bv32): bv32 { (if x then 1 else 0) | (p << 1) }

  // ---- machine arithmetic, one bit at a time

  function XorNum(p: bv32, q: bv32): bv32 { p ^ q }

  function HalfNum(p: bv32): bv32 { p >> 1 }

  predicate Odd(p: bv32) { p & 1 != 0 }

  /** p has no bits outside m. */
  predicate Within(p: bv32, m: bv32) { p & !m == 0 }

  lemma JoinXor(x: bool, y: bool, p: bv32, q: bv32)
    ensures XorNum(Join(x, p), Join(y, q)) == Join(x != y, XorNum(p, q))
  {
  }

  lemma JoinHalf(x: bool, p: bv32)
    requires Within(p, 0x7FFF_FFFF)
    ensures HalfNum(Join(x, p)) == p && (Odd(Join(x, p)) <==> x)
  {
  }

  function Mask(n: nat): bv32 { if n == 0 then 0 else Join(true, Mask(n - 1)) }

  lemma JoinMask(x: bool, p: bv32, m: bv32)
    requires Within(p, m)
    ensures Within(Join(x, p), Join(true, m))
  {
  }

  lemma ZeroNum()
    ensures Join(false, 0) == 0 && Within(0, 0) && XorNum(0, 0) == 0
  {
  }

  lemma FourMore(m: bv32)
    ensures Join(true, Join(true, Join(true, Join(true, m)))) == (m << 4) | 0xF
  {
  }

  lemma MaskFour(n: nat)
    ensures Mask(n + 4) == (Mask(n) << 4) | 0xF
  {
    hide Join;
    assert Mask(n + 2) == Join(true, Mask(n + 1)) && Mask(n + 4) == Join(true, Mask(n + 3));
    assert Mask(n + 3) == Join(true, Mask(n + 2));
    FourMore(Mask(n));
  }

  lemma MaskOf31()
    ensures Mask(31) == 0x7FFF_FFFF
  {
    assert Mask(3) == 7 by {
      assert Mask(1) == 1 && Mask(2) == 3;
    }
    MaskFour(3);
    MaskFour(7);
    MaskFour(11);
    MaskFour(15);
    MaskFour(19);
    MaskFour(23);
    MaskFour(27);
  }

  // ---- numbers of words

  lemma NumCons(x: bool, b: Bits)
    ensures Num([x] + b) == Join(x, Num(b))
  {
    hide Join;
    assert ([x] + b)[1..] == b;
  }

  lemma {:induction false} NumMask(b: Bits)
    ensures Within(Num(b), Mask(|b|))
  {
    hide Join, Within;
    ZeroNum();
    if b != [] {
      NumMask(b[1..]);
      JoinMask(b[0], Num(b[1..]), Mask(|b| - 1));
    }
  }

  function XorBits(a: Bits, b: Bits): (r: Bits)
    requires |a| == |b|
    ensures |r| == |a|
  {
    if a == [] then [] else [a[0] != b[0]] + XorBits(a[1..], b[1..])
  }

  lemma {:induction false} XorBitsAt(a: Bits, b: Bits, i: nat)
    requires |a| == |b| && i < |a|
    ensures XorBits(a, b)[i] == (a[i] != b[i])
  {
    if i > 0 {
      XorBitsAt(a[1..], b[1..], i - 1);
    }
  }

  lemma XorIsXorBits(a: Word, b: Word)
    ensures Xor(a, b) == XorBits(a, b)
  {
    forall i | 0 <= i < 32 ensures Xor(a, b)[i] == XorBits(a, b)[i] {
      XorBitsAt(a, b, i);
    }
  }

  lemma {:induction false} NumXorBits(a: Bits, b: Bits)
    requires |a| == |b|
    ensures Num(XorBits(a, b)) == XorNum(Num(a), Num(b))
  {
    hide Join, XorNum;
    ZeroNum();
    if a != [] {
      NumXorBits(a[1..], b[1..]);
      NumCons(a[0] != b[0], XorBits(a[1..], b[1..]));
      JoinXor(a[0], b[0], Num(a[1..]), Num(b[1..]));
    }
  }

  lemma NumXor(a: Word, b: Word)
    ensures Num(Xor(a, b)) == XorNum(Num(a), Num(b))
  {
    hide Xor, Num, XorBits, XorNum;
    XorIsXorBits(a, b);
    NumXorBits(a, b);
  }

  lemma {:induction false} NumPadded(b: Bits, n: nat)
    ensures Num(b + Zeros(n)) == Num(b)
    decreases |b| + n
  {
    hide Join;
    ZeroNum();
    if b != [] {
      assert (b + Zeros(n))[1..] == b[1..] + Zeros(n);
      NumPadded(b[1..], n);
    } else if n > 0 {
      assert (b + Zeros(n))[1..] == b + Zeros(n - 1);
      NumPadded(b, n - 1);
    }
  }

  lemma NumShift(c: Word)
    ensures Num(Shr(c, 1)) == HalfNum(Num(c)) && (Odd(Num(c)) <==> c[0])
  {
    hide Join, Mask, Num, HalfNum, Odd, Within;
    var rest := c[1..];
    assert c == [c[0]] + rest;
    NumCons(c[0], rest);
    NumMask(rest);
    MaskOf31();
    JoinHalf(c[0], Num(rest));
    NumPadded(rest, 1);
  }

  // ---- the polynomial

  function Four(a: bool, b: bool, c: bool, d: bool): nat {
    (if a then 1 else 0) + (if b then 2 else 0) + (if c then 4 else 0) + (if d then 8 else 0)
  }

  function JoinFour(a: bool, b: bool, c: bool, d: bool, v: bv32): bv32 { Join(a, Join(b, Join(c, Join(d, v)))) }

  lemma TailCons(w: Word, i: nat)
    requires i < 32
    ensures ToNat(w[i..]) == (if w[i] then 1 else 0) + 2 * ToNat(w[i + 1..])
    ensures Num(w[i..]) == Join(w[i], Num(w[i + 1..]))
  {
    hide Join;
    assert w[i..][1..] == w[i + 1..];
  }

  lemma TailFour(w: Word, i: nat)
    requires i <= 28
    ensures ToNat(w[i..]) == Four(w[i], w[i + 1], w[i + 2], w[i + 3]) + 16 * ToNat(w[i + 4..])
    ensures Num(w[i..]) == JoinFour(w[i], w[i + 1], w[i + 2], w[i + 3], Num(w[i + 4..]))
  {
    hide ToNat, Num, Join;
    TailCons(w, i);
    TailCons(w, i + 1);
    TailCons(w, i + 2);
    TailCons(w, i + 3);
  }

  lemma NothingLeft(w: Word)
    ensures ToNat(w[32..]) == 0 && Num(w[32..]) == 0
  {
  }

  lemma PolyLowBits(w: Word)
    requires w == Poly()
    ensures !w[0] && !w[1] && !w[2] && !w[3]
    ensures !w[4] && w[5] && !w[6] && !w[7]
    ensures w[8] && w[9] && !w[10] && !w[11]
    ensures !w[12] && !w[13] && !w[14] && w[15]
  {
  }

  lemma PolyHighBits(w: Word)
    requires w == Poly()
    ensures !w[16] && !w[17] && !w[18] && w[19]
    ensures w[20] && w[21] && !w[22] && w[23]
    ensures w[24] && !w[25] && w[26] && w[27]
    ensures !w[28] && w[29] && w[30] && w[31]
  {
  }

  /** The list of exponents yields the pattern that the source also writes as a number. */
  lemma PolyIsPattern()
    ensures ToNat(Poly()) == 0xEDB88320 && Num(Poly()) == 0xEDB88320
    ensures FromNat(0xEDB88320, 32) == Poly()
  {
    hide ToNat, Num, FromNat;
    var w := Poly();
    PolyNat(w);
    PolyNum(w);
    assert w[0..] == w;
    NatRoundTrip(w);
  }

  lemma PolyNat(w: Word)
    requires w == Poly()
    ensures ToNat(w[0..]) == 0xEDB88320
  {
    hide ToNat, Num, Poly, JoinFour;
    PolyLowBits(w);
    PolyHighBits(w);
    NothingLeft(w);
    TailFour(w, 28);
    assert ToNat(w[28..]) == 0xE;
    TailFour(w, 24);
    assert ToNat(w[24..]) == 0xED;
    TailFour(w, 20);
    assert ToNat(w[20..]) == 0xEDB;
    TailFour(w, 16);
    assert ToNat(w[16..]) == 0xEDB8;
    TailFour(w, 12);
    assert ToNat(w[12..]) == 0xEDB88;
    TailFour(w, 8);
    assert ToNat(w[8..]) == 0xEDB883;
    TailFour(w, 4);
    assert ToNat(w[4..]) == 0xEDB8832;
    TailFour(w, 0);
    assert ToNat(w[0..]) == 0xEDB88320;
  }

  lemma PolyNum(w: Word)
    requires w == Poly()
    ensures Num(w[0..]) == 0xEDB88320
  {
    hide ToNat, Num, Poly, Four;
    PolyLowBits(w);
    PolyHighBits(w);
    NothingLeft(w);
    TailFour(w, 28);
    assert Num(w[28..]) == 0xE;
    TailFour(w, 24);
    assert Num(w[24..]) == 0xED;
    TailFour(w, 20);
    assert Num(w[20..]) == 0xEDB;
    TailFour(w, 16);
    assert Num(w[16..]) == 0xEDB8;
    TailFour(w, 12);
    assert Num(w[12..]) == 0xEDB88;
    TailFour(w, 8);
    assert Num(w[8..]) == 0xEDB883;
    TailFour(w, 4);
    assert Num(w[4..]) == 0xEDB8832;
    TailFour(w, 0);
    assert Num(w[0..]) == 0xEDB88320;
  }

  // ---- the register in machine arithmetic

  function NumberStep(v: bv32): bv32 { if Odd(v) then XorNum(0xEDB88320, HalfNum(v)) else HalfNum(v) }

  function NumberSteps(n: nat, v: bv32): bv32 { if n == 0 then v else NumberSteps(n - 1, NumberStep(v)) }

  /** One step of the division is the conditional exclusive or of the source. */
  lemma StepIsNumberStep(c: Word)
    ensures Num(BitStep(c)) == NumberStep(Num(c))
  {
    hide Num, Xor, Shr, Poly, XorNum, HalfNum, Odd;
    NumShift(c);
    PolyIsPattern();
    NumXor(Poly(), Shr(c, 1));
  }

  lemma {:induction false} StepsAreNumberSteps(n: nat, c: Word)
    ensures Num(Steps(n, c)) == NumberSteps(n, Num(c))
  {
    hide Num, BitStep, NumberStep;
    if n > 0 {
      StepIsNumberStep(c);
      StepsAreNumberSteps(n - 1, BitStep(c));
    }
  }

  /** A byte as a number, in the bits of which the least significant comes first. */
  lemma FeedIsNumberSteps(c: Word, b: Byte)
    ensures Num(Register(c, [b])) == NumberSteps(8, XorNum(Num(c), Num(b)))
  {
    hide Num, Xor, FeedBits, Steps, NumberSteps, XorNum, ToWord;
    FeedIsSteps(c, b);
    OneByte(c, b);
    NumXor(c, ToWord(b));
    NumOfByte(b);
    StepsAreNumberSteps(8, Xor(c, ToWord(b)));
  }

  lemma OneByte(c: Word, b: Byte)
    ensures Register(c, [b]) == FeedBits(c, b)
  {
    assert [b][1..] == [];
  }

  lemma NumOfByte(b: Byte)
    ensures Num(ToWord(b)) == Num(b)
  {
    hide Num;
    NumPadded(b, 24);
  }

  // ---- the check value

  /** The bytes of a text. */
  function Ascii(s: string): (r: seq<Byte>)
    ensures |r| == |s| && forall i :: 0 <= i < |s| ==> r[i] == FromNat(s[i] as nat, 8)
  {
    seq(|s|, i requires 0 <= i < |s| => FromNat(s[i] as nat, 8))
  }

  lemma NatNibble(n: nat, k: nat)
    ensures Num(FromNat(n, k + 4))
         == JoinFour(n % 2 == 1, n / 2 % 2 == 1, n / 4 % 2 == 1, n / 8 % 2 == 1, Num(FromNat(n / 16, k)))
  {
    hide Join, Num;
    assert n / 2 / 2 == n / 4 && n / 4 / 2 == n / 8 && n / 8 / 2 == n / 16;
    NumCons(n / 8 % 2 == 1, FromNat(n / 16, k));
    NumCons(n / 4 % 2 == 1, FromNat(n / 8, k + 1));
    NumCons(n / 2 % 2 == 1, FromNat(n / 4, k + 2));
    NumCons(n % 2 == 1, FromNat(n / 2, k + 3));
  }

  lemma EmptyNum(n: nat)
    ensures Num(FromNat(n, 0)) == 0
  {
  }

  lemma DigitNums0()
    ensures Num(FromNat(0x31, 8)) == 0x31
    ensures Num(FromNat(0x32, 8)) == 0x32
    ensures Num(FromNat(0x33, 8)) == 0x33
  {
    hide Num, FromNat;
    NatNibble(3, 0);
    EmptyNum(0);
    NatNibble(0x31, 4);
    NatNibble(0x32, 4);
    NatNibble(0x33, 4);
  }

  lemma DigitNums1()
    ensures Num(FromNat(0x34, 8)) == 0x34
    ensures Num(FromNat(0x35, 8)) == 0x35
    ensures Num(FromNat(0x36, 8)) == 0x36
  {
    hide Num, FromNat;
    NatNibble(3, 0);
    EmptyNum(0);
    NatNibble(0x34, 4);
    NatNibble(0x35, 4);
    NatNibble(0x36, 4);
  }

  lemma DigitNums2()
    ensures Num(FromNat(0x37, 8)) == 0x37
    ensures Num(FromNat(0x38, 8)) == 0x38
    ensures Num(FromNat(0x39, 8)) == 0x39
  {
    hide Num, FromNat;
    NatNibble(3, 0);
    EmptyNum(0);
    NatNibble(0x37, 4);
    NatNibble(0x38, 4);
    NatNibble(0x39, 4);
  }

  lemma CheckSteps0()
    ensures NumberSteps(8, XorNum(0xFFFFFFFF, 0x31)) == 0x7C231048
    ensures NumberSteps(8, XorNum(0x7C231048, 0x32)) == 0xB0ACBB32
    ensures NumberSteps(8, XorNum(0xB0ACBB32, 0x33)) == 0x77B79C2D
  {
  }

  lemma CheckSteps1()
    ensures NumberSteps(8, XorNum(0x77B79C2D, 0x34)) == 0x641C1F5C
    ensures NumberSteps(8, XorNum(0x641C1F5C, 0x35)) == 0x340AC5E3
    ensures NumberSteps(8, XorNum(0x340AC5E3, 0x36)) == 0xF68D2C9E
  {
  }

  lemma CheckSteps2()
    ensures NumberSteps(8, XorNum(0xF68D2C9E, 0x37)) == 0xAFFC9660
    ensures NumberSteps(8, XorNum(0xAFFC9660, 0x38)) == 0x651F2550
    ensures NumberSteps(8, XorNum(0x651F2550, 0x39)) == 0x340BC6D9
  {
  }

  lemma FeedAt(c: Word, m: seq<Byte>, k: nat, before: bv32, byte: bv32, after: bv32) returns (next: Word)
    requires k < |m| && Num(c) == before && Num(m[k]) == byte
    requires NumberSteps(8, XorNum(before, byte)) == after
    ensures Num(next) == after && Register(c, m[k..]) == Register(next, m[k + 1..])
  {
    hide Num, FeedBits, NumberSteps, XorNum;
    next := Register(c, [m[k]]);
    FeedIsNumberSteps(c, m[k]);
    OneByte(c, m[k]);
    assert m[k..][1..] == m[k + 1..];
  }

  lemma DigitsNum(m: seq<Byte>)
    requires m == Ascii("123456789")
    ensures Num(m[0]) == 0x31 && Num(m[1]) == 0x32 && Num(m[2]) == 0x33
    ensures Num(m[3]) == 0x34 && Num(m[4]) == 0x35 && Num(m[5]) == 0x36
    ensures Num(m[6]) == 0x37 && Num(m[7]) == 0x38 && Num(m[8]) == 0x39
  {
    hide Num, FromNat;
    DigitNums0();
    DigitNums1();
    DigitNums2();
  }

  lemma {:induction false} OnesMask(b: Bits)
    requires forall i :: 0 <= i < |b| ==> b[i]
    ensures Num(b) == Mask(|b|)
  {
    hide Join;
    if b != [] {
      OnesMask(b[1..]);
    }
  }

  lemma OnesNum()
    ensures Num(Not(ZERO)) == 0xFFFF_FFFF
  {
    hide Num;
    OnesMask(Not(ZERO));
    MaskOf31();
    assert Mask(32) == Join(true, Mask(31));
  }

  lemma NumNot(c: Word)
    ensures Num(Not(c)) == XorNum(Num(c), 0xFFFF_FFFF)
  {
    hide Num, XorNum;
    assert Not(c) == Xor(c, Not(ZERO));
    NumXor(c, Not(ZERO));
    OnesNum();
  }

  lemma RegisterOfDigits(c0: Word, m: seq<Byte>)
    requires m == Ascii("123456789") && Num(c0) == 0xFFFF_FFFF
    ensures Num(Register(c0, m)) == 0x340BC6D9
  {
    hide Num, Register, NumberSteps, XorNum, Ascii;
    DigitsNum(m);
    CheckSteps0();
    CheckSteps1();
    CheckSteps2();
    var c := c0;
    assert m[0..] == m;
    c := FeedAt(c, m, 0, 0xFFFFFFFF, 0x31, 0x7C231048);
    c := FeedAt(c, m, 1, 0x7C231048, 0x32, 0xB0ACBB32);
    c := FeedAt(c, m, 2, 0xB0ACBB32, 0x33, 0x77B79C2D);
    c := FeedAt(c, m, 3, 0x77B79C2D, 0x34, 0x641C1F5C);
    c := FeedAt(c, m, 4, 0x641C1F5C, 0x35, 0x340AC5E3);
    c := FeedAt(c, m, 5, 0x340AC5E3, 0x36, 0xF68D2C9E);
    c := FeedAt(c, m, 6, 0xF68D2C9E, 0x37, 0xAFFC9660);
    c := FeedAt(c, m, 7, 0xAFFC9660, 0x38, 0x651F2550);
    c := FeedAt(c, m, 8, 0x651F2550, 0x39, 0x340BC6D9);
    NoMore(c, m);
  }

  lemma NoMore(c: Word, m: seq<Byte>)
    ensures Register(c, m[|m|..]) == c
  {
  }

  function Halved(v: bv32, i: nat): bv32 { if i == 0 then v else Halved(HalfNum(v), i - 1) }

  lemma {:induction false} NumBit(c: Word, i: nat)
    requires i < 32
    ensures c[i] <==> Odd(Halved(Num(c), i))
    decreases i
  {
    hide Num, HalfNum, Odd;
    NumShift(c);
    if i > 0 {
      NumBit(Shr(c, 1), i - 1);
    }
  }

  /** A word is known by its number. */
  lemma NumInjective(a: Word, b: Word)
    requires Num(a) == Num(b)
    ensures a == b
  {
    hide Num, Halved, Odd;
    forall i | 0 <= i < 32 ensures a[i] == b[i] {
      NumBit(a, i);
      NumBit(b, i);
    }
  }

  lemma CheckHalf()
    ensures Num(FromNat(0xCBF4, 16)) == 0xCBF4
  {
    hide Num, FromNat;
    EmptyNum(0);
    NatNibble(0xC, 0);
    NatNibble(0xCB, 4);
    NatNibble(0xCBF, 8);
    NatNibble(0xCBF4, 12);
  }

  lemma CheckNum()
    ensures Num(FromNat(0xCBF43926, 32)) == 0xCBF43926
  {
    hide Num, FromNat;
    CheckHalf();
    NatNibble(0xCBF43, 16);
    NatNibble(0xCBF439, 20);
    NatNibble(0xCBF4392, 24);
    NatNibble(0xCBF43926, 28);
  }

  /** The check value that the catalogue of CRCs gives for CRC-32. */
  lemma CheckValue()
    ensures Crc(ZERO, Ascii("123456789")) == FromNat(0xCBF43926, 32)
  {
    hide Num, Register, FromNat, Ascii, Not;
    var m := Ascii("123456789");
    OnesNum();
    RegisterOfDigits(Not(ZERO), m);
    NumNot(Register(Not(ZERO), m));
    CheckNum();
    NumInjective(Crc(ZERO, m), FromNat(0xCBF43926, 32));
  }
}
