/** crc32_combine of usr/klibc/zlib/crc32.c: the CRC of a concatenation from the CRCs of its parts, by
    squaring 32x32 matrices over GF(2). */
module Crc32Combine {
  import opened Crc32
  import CrcNumbers

  function Unit(i: nat): (r: Word)
    ensures forall j :: 0 <= j < 32 ==> r[j] == (j == i)
  {
    seq(32, j => j == i)
  }

  /** The exclusive-or of the rows i.. of m that are selected by the bits of v. */
  function Times(m: seq<Word>, v: Word, i: nat): Word
    requires |m| == 32 && i <= 32
    decreases 32 - i
  {
    if i == 32 then ZERO else if v[i] then Xor(m[i], Times(m, v, i + 1)) else Times(m, v, i + 1)
  }

  /** The matrix m is the operator "n zero bits": its rows are the images of the unit vectors. */
  ghost predicate Represents(m: seq<Word>, n: nat) {
    |m| == 32 && forall i :: 0 <= i < 32 ==> m[i] == Steps(n, Unit(i))
  }

  // ---- matrices represent linear maps

  function FromBit(v: Word, i: nat): (r: Word)
    ensures forall j :: 0 <= j < 32 ==> r[j] == (j >= i && v[j])
  {
    seq(32, j requires 0 <= j < 32 => j >= i && v[j])
  }

  lemma {:induction false} TimesIsSteps(m: seq<Word>, n: nat, v: Word, i: nat)
    requires Represents(m, n) && i <= 32
    ensures Times(m, v, i) == Steps(n, FromBit(v, i))
    decreases 32 - i
  {
    if i == 32 {
      assert FromBit(v, i) == ZERO;
      StepsOfZero(n);
    } else {
      TimesIsSteps(m, n, v, i + 1);
      if v[i] {
        assert FromBit(v, i) == Xor(Unit(i), FromBit(v, i + 1));
        StepsLinear(n, Unit(i), FromBit(v, i + 1));
      } else {
        assert FromBit(v, i) == FromBit(v, i + 1);
      }
    }
  }

  lemma StepsOfZero(n: nat)
    ensures Steps(n, ZERO) == ZERO
  {
    var z: Word := ZERO;
    assert Xor(z, z) == z;
    StepsLinear(n, z, z);
    assert Xor(Steps(n, z), Steps(n, z)) == z;
  }

  /** Applying the matrix to a vector is applying the operator. */
  lemma MatrixActs(m: seq<Word>, n: nat, v: Word)
    requires Represents(m, n)
    ensures Times(m, v, 0) == Steps(n, v)
  {
    TimesIsSteps(m, n, v, 0);
    assert FromBit(v, 0) == v;
  }

  /** Squaring the matrix doubles the number of zero bits. */
  lemma SquareRepresents(m: seq<Word>, n: nat, s: seq<Word>)
    requires Represents(m, n) && |s| == 32
    requires forall i :: 0 <= i < 32 ==> s[i] == Times(m, m[i], 0)
    ensures Represents(s, n + n)
  {
    forall i | 0 <= i < 32
      ensures s[i] == Steps(n + n, Unit(i))
    {
      MatrixActs(m, n, m[i]);
      StepsAdd(n, n, Unit(i));
    }
  }

  method Gf2MatrixTimes(mat: array<Word>, vec: Word) returns (sum: Word)
    requires mat.Length == 32
    ensures sum == Times(mat[..], vec, 0)
  {
    var v, i := vec, 0;
    sum := ZERO;
    ghost var m := mat[..];
    XorZero(Times(m, vec, 0));
    while v != ZERO
      invariant 0 <= i <= 32 && v == Shr(vec, i)
      invariant Times(m, vec, 0) == Xor(sum, Times(m, vec, i))
      decreases 32 - i
    {
      assert i == 32 ==> v == ZERO;
      assert v[0] == vec[i] && m[i] == mat[i];
      if v[0] {
        XorAssoc(sum, m[i], Times(m, vec, i + 1));
        sum := Xor(sum, mat[i]);
      }
      v := Shr(v, 1);
      i := i + 1;
      assert v == Shr(vec, i);
    }
    assert forall j :: i <= j < 32 ==> vec[j] == Shr(vec, i)[j - i];
    NoBitsLeft(m, vec, i);
    XorZero(sum);
  }

  lemma XorZero(a: Word)
    ensures Xor(a, ZERO) == a && Xor(ZERO, a) == a
  {
  }

  lemma {:induction false} NoBitsLeft(m: seq<Word>, v: Word, i: nat)
    requires |m| == 32 && i <= 32 && forall j :: i <= j < 32 ==> !v[j]
    ensures Times(m, v, i) == ZERO
    decreases 32 - i
  {
    if i < 32 {
      NoBitsLeft(m, v, i + 1);
    }
  }

  method Gf2MatrixSquare(square: array<Word>, mat: array<Word>)
    requires square.Length == 32 && mat.Length == 32 && square != mat
    modifies square
    ensures forall n :: 0 <= n < 32 ==> square[n] == Times(mat[..], mat[n], 0)
  {
    for n := 0 to 32
      invariant forall i :: 0 <= i < n ==> square[i] == Times(mat[..], mat[i], 0)
    {
      square[n] := Gf2MatrixTimes(mat, mat[n]);
    }
  }

  /** The operator for a single zero bit, written down row by row. */
  lemma OneBitOperator(m: seq<Word>)
    requires |m| == 32 && m[0] == Poly() && forall i :: 1 <= i < 32 ==> m[i] == Unit(i - 1)
    ensures Represents(m, 1)
  {
    forall i | 0 <= i < 32
      ensures m[i] == Steps(1, Unit(i))
    {
      var u := Unit(i);
      assert Steps(1, u) == BitStep(u);
      if i == 0 {
        assert Shr(u, 1) == ZERO;
        assert Xor(Poly(), Shr(u, 1)) == Poly();
      } else {
        assert Shr(u, 1) == Unit(i - 1);
      }
    }
  }

  function Product(q: nat, len: nat): nat { q * len }

  /** `len` times q zero bits. */
  function Repeated(q: nat, len: nat, c: Word): Word { Steps(Product(q, len), c) }

  lemma NoneLeft(q: nat, c: Word)
    ensures Repeated(q, 0, c) == c
  {
    assert Product(q, 0) == 0;
  }

  lemma ProductEven(q: nat, h: nat)
    ensures Product(q, 2 * h) == Product(q + q, h)
  {
    assert (q + q) * h == q * (2 * h);
  }

  lemma ProductOdd(q: nat, h: nat)
    ensures Product(q, 2 * h + 1) == q + Product(q + q, h)
  {
    assert (q + q) * h == q * (2 * h);
    assert q * (2 * h + 1) == q * (2 * h) + q;
  }

  lemma StepsSplit(n: nat, a: nat, b: nat, c: Word)
    requires n == a + b
    ensures Steps(n, c) == Steps(b, Steps(a, c))
  {
    hide Steps;
    StepsAdd(a, b, c);
  }

  lemma HalveEven(q: nat, h: nat, c: Word)
    ensures Repeated(q, 2 * h, c) == Repeated(q + q, h, c)
  {
    hide Steps, Product;
    ProductEven(q, h);
  }

  lemma HalveOdd(q: nat, h: nat, c: Word)
    ensures Repeated(q, 2 * h + 1, c) == Repeated(q + q, h, Steps(q, c))
  {
    hide Steps, Product;
    ProductOdd(q, h);
    StepsSplit(Product(q, 2 * h + 1), q, Product(q + q, h), c);
  }

  /** One bit of the length: q zero bits are due `len` times, and the odd one is applied now. */
  lemma HalveLength(q: nat, len: nat, c: Word, c': Word)
    requires c' == if len % 2 == 1 then Steps(q, c) else c
    ensures Repeated(q, len, c) == Repeated(q + q, len / 2, c')
  {
    hide Steps, Repeated;
    if len % 2 == 1 {
      HalveOdd(q, len / 2, c);
    } else {
      HalveEven(q, len / 2, c);
    }
  }

  lemma UnitShift(n: nat)
    requires 1 <= n < 32
    ensures ShiftLeft(Unit(n - 1)) == Unit(n)
  {
  }

  method FillOneBitOperator(odd: array<Word>)
    requires odd.Length == 32
    modifies odd
    ensures Represents(odd[..], 1)
  {
    hide FromNat, Poly, ToNat, Represents, Unit, ShiftLeft, CrcNumbers.Num;
    CrcNumbers.PolyIsPattern();
    odd[0] := FromNat(0xEDB88320, 32);
    var row := Unit(0);
    for n := 1 to 32
      invariant row == Unit(n - 1)
      invariant odd[0] == Poly() && forall i :: 1 <= i < n ==> odd[i] == Unit(i - 1)
    {
      odd[n] := row;
      UnitShift(n);
      row := ShiftLeft(row);
    }
    OneBitOperator(odd[..]);
  }

  /** One round: square the operator and apply it if the lowest bit of the length asks for it. */
  method SquareAndApply(square: array<Word>, mat: array<Word>, c: Word, len: nat, ghost q: nat) returns (c': Word)
    requires square.Length == 32 && mat.Length == 32 && square != mat && Represents(mat[..], q)
    modifies square
    ensures Represents(square[..], q + q)
    ensures Repeated(q + q, len, c) == Repeated(q + q + (q + q), len / 2, c')
  {
    hide Steps, Represents, Repeated;
    Gf2MatrixSquare(square, mat);
    SquareRepresents(mat[..], q, square[..]);
    c' := c;
    if len % 2 == 1 {
      MatrixActs(square[..], q + q, c);
      c' := Gf2MatrixTimes(square, c);
    }
    HalveLength(q + q, len, c, c');
  }

  /** crc32_combine: `len2` zero bytes are run through crc1, bit by bit of len2. */
  method Combine(crc1: Word, crc2: Word, len2: nat) returns (crc: Word)
    ensures crc == if len2 == 0 then crc1 else Xor(Steps(8 * len2, crc1), crc2)
  {
    if len2 == 0 {
      return crc1;
    }
    var even := new Word[32](_ => ZERO);
    var odd := new Word[32](_ => ZERO);
    FillOneBitOperator(odd);
    Gf2MatrixSquare(even, odd);
    SquareRepresents(odd[..], 1, even[..]);
    Gf2MatrixSquare(odd, even);
    SquareRepresents(even[..], 2, odd[..]);
    var c := ApplyZeros(even, odd, crc1, len2, 4);
    crc := Xor(c, crc2);
  }

  /** The loop of crc32_combine, entered with the operator for q zero bits in `odd`. */
  method ApplyZeros(even: array<Word>, odd: array<Word>, crc1: Word, len2: nat, ghost q: nat) returns (c: Word)
    requires even.Length == 32 && odd.Length == 32 && even != odd && Represents(odd[..], q)
    modifies even, odd
    ensures c == Repeated(q + q, len2, crc1)
  {
    hide Steps, Represents, Repeated;
    var len := len2;
    ghost var p := q;
    c := crc1;
    while len != 0
      invariant Represents(odd[..], p)
      invariant Repeated(p + p, len, c) == Repeated(q + q, len2, crc1)
      decreases len
    {
      c := SquareAndApply(even, odd, c, len, p);
      len := len / 2;
      p := p + p;
      if len == 0 {
        break;
      }
      c := SquareAndApply(odd, even, c, len, p);
      len := len / 2;
      p := p + p;
    }
    NoneLeft(p + p, c);
  }

  function ShiftLeft(a: Word): (r: Word)
    ensures forall i :: 0 <= i < 32 ==> r[i] == (i > 0 && a[i - 1])
  {
    [false] + a[..31]
  }

  // ---- combining checksums is concatenating messages

  /** The register is affine in its start value. */
  lemma {:induction false} RegisterAffine(c: Word, d: Word, buf: seq<Byte>)
    ensures Register(Xor(c, d), buf) == Xor(Steps(8 * |buf|, c), Register(d, buf))
    decreases |buf|
  {
    hide FeedBits, Xor;
    if buf != [] {
      var b, rest := buf[0], buf[1..];
      calc {
        Register(Xor(c, d), buf);
        Register(FeedBits(Xor(c, d), b), rest);
        { FeedAffine(c, d, b); }
        Register(Xor(Steps(|b|, c), FeedBits(d, b)), rest);
        { RegisterAffine(Steps(|b|, c), FeedBits(d, b), rest); }
        Xor(Steps(8 * |rest|, Steps(|b|, c)), Register(FeedBits(d, b), rest));
        { StepsAdd(|b|, 8 * |rest|, c); }
        Xor(Steps(8 * |buf|, c), Register(d, buf));
      }
    }
  }

  lemma FeedAffine(c: Word, d: Word, bits: Bits)
    requires |bits| <= 32
    ensures FeedBits(Xor(c, d), bits) == Xor(Steps(|bits|, c), FeedBits(d, bits))
  {
    FeedIsSteps(Xor(c, d), bits);
    FeedIsSteps(d, bits);
    XorAssoc(c, d, ToWord(bits));
    StepsLinear(|bits|, c, Xor(d, ToWord(bits)));
  }

  lemma NotXor(a: Word, b: Word)
    ensures Xor(a, Not(b)) == Not(Xor(a, b)) && Xor(a, Not(ZERO)) == Not(a) && Not(Not(a)) == a
  {
  }

  /** crc32_combine(crc(A), crc(B), |B|) is crc(A ++ B), for all byte strings A and B. */
  lemma CombineIsConcat(a: seq<Byte>, b: seq<Byte>)
    ensures Xor(Steps(8 * |b|, Crc(ZERO, a)), Crc(ZERO, b)) == Crc(ZERO, a + b)
  {
    hide Steps, Register, Xor, Not;
    var ones := Not(ZERO);
    var crcA, ra := Crc(ZERO, a), Register(ones, a);
    RegisterConcat(ones, a, b);
    NotXor(crcA, ZERO);
    NotXor(ra, ZERO);
    assert ra == Xor(crcA, ones);
    RegisterAffine(crcA, ones, b);
    NotXor(Steps(8 * |b|, crcA), Register(ones, b));
  }

  /** The whole chain: summing both parts by the fast word loop and combining gives the CRC that the
      fast word loop computes for the concatenation. */
  method CombineOfParts(t: array2<Word>, a: seq<Byte>, b: seq<Byte>, addressA: nat, addressB: nat)
    returns (combined: Word)
    requires IsTable(t)
    ensures combined == Crc(ZERO, a + b)
  {
    var crcA := Crc32Little(t, ZERO, a, addressA);
    var crcB := Crc32Little(t, ZERO, b, addressB);
    combined := Combine(crcA, crcB, |b|);
    CombineIsConcat(a, b);
    assert b == [] ==> a + b == a;
  }
}
