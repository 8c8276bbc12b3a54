/** The CRC of usr/klibc/zlib/crc32.c as the remainder of a division of polynomials over the field of two elements. */
module CrcPolynomial {
  import opened Crc32

  /** A polynomial over the field of two elements, as the exponents of its terms. */
  type Polynomial = set<nat>

  /** The polynomial of section 8.1.1.6.2 of ITU-T V.42, by which RFC 1952 divides. */
  const MODULUS: Polynomial := {32, 26, 23, 22, 16, 12, 11, 10, 8, 7, 5, 4, 2, 1, 0}

  predicate Has(a: Polynomial, e: int) { e >= 0 && e in a }

  function Plus(a: Polynomial, b: Polynomial): (r: Polynomial)
    ensures forall e :: Has(r, e) <==> Has(a, e) != Has(b, e)
  {
    (a - b) + (b - a)
  }

  /** x^k times a. */
  function Raise(a: Polynomial, k: nat): (r: Polynomial)
    ensures forall e :: Has(r, e) <==> Has(a, e - k)
  {
    var r := set e | e in a :: e + k;
    assert forall e :: Has(a, e - k) ==> Has(r, e) by {
      forall e | Has(a, e - k) ensures Has(r, e) {
        assert e == (e - k) + k;
      }
    }
    r
  }

  /** Whether the bits, sent with the highest power first, have a term of degree e. */
  predicate Digit(bits: Bits, e: int) { 0 <= e < |bits| && bits[|bits| - 1 - e] }

  function OfBits(bits: Bits): (r: Polynomial)
    ensures forall e :: Has(r, e) <==> Digit(bits, e)
  {
    set e: nat | e < |bits| && Digit(bits, e)
  }

  /** p, or zero. */
  function Only(b: bool, p: Polynomial): Polynomial { if b then p else {} }

  /** The product of the polynomials of q and p, one digit of q at a time. */
  function Product(q: Bits, p: Polynomial): Polynomial {
    if q == [] then {} else Plus(Raise(Product(q[..|q| - 1], p), 1), Only(q[|q| - 1], p))
  }

  /** q and r are quotient and remainder of the message and the start value before it. */
  ghost predicate Divides(start: Polynomial, bits: Bits, q: Bits, r: Polynomial) {
    && |q| == |bits|
    && (forall e :: Has(r, e) ==> e < 32)
    && Plus(Raise(OfBits(bits), 32), Raise(start, |bits|)) == Plus(Product(q, MODULUS), r)
  }

  // ---- polynomials

  lemma Same(a: Polynomial, b: Polynomial)
    requires forall e :: Has(a, e) <==> Has(b, e)
    ensures a == b
  {
    assert forall e :: e in a ==> Has(a, e);
    assert forall e :: e in b ==> Has(b, e);
  }

  lemma RaiseSum(a: Polynomial, b: Polynomial)
    ensures Raise(Plus(a, b), 1) == Plus(Raise(a, 1), Raise(b, 1))
  {
    hide Plus, Raise, Has;
    Same(Raise(Plus(a, b), 1), Plus(Raise(a, 1), Raise(b, 1)));
  }

  lemma RaiseMore(a: Polynomial, k: nat)
    ensures Raise(Raise(a, k), 1) == Raise(a, k + 1)
  {
    hide Raise, Has;
    forall e ensures Has(Raise(Raise(a, k), 1), e) <==> Has(Raise(a, k + 1), e) {
      assert e - 1 - k == e - (k + 1);
    }
    Same(Raise(Raise(a, k), 1), Raise(a, k + 1));
  }

  lemma ProductSnoc(q: Bits, b: bool, p: Polynomial)
    ensures Product(q + [b], p) == Plus(Raise(Product(q, p), 1), Only(b, p))
  {
    hide Plus, Raise;
    assert (q + [b])[..|q|] == q;
  }

  // ---- the register holds a remainder

  lemma ModulusAt(e: nat)
    ensures Has(MODULUS, e) <==> e == 32 || (e < 32 && Poly()[31 - e])
  {
    assert Has(MODULUS, e) <==> e == 32 || e in POLY_TERMS;
    if e < 32 {
      assert 31 - (31 - e) == e;
    }
  }

  lemma StepAt(c: Word, b: bool, e: nat)
    requires e < 32
    ensures Digit(BitStep(Xor(c, ToWord([b]))), e) <==> (c[0] != b && Poly()[31 - e]) != Digit(c, e - 1)
  {
    hide Poly;
  }

  /** One step: x times the register and the new bit, less the modulus when a term of degree 32 arises. */
  lemma StepDivides(c: Word, b: bool)
    ensures Plus(Raise(OfBits(c), 1), Only(b, {32}))
         == Plus(Only(c[0] != b, MODULUS), OfBits(BitStep(Xor(c, ToWord([b])))))
  {
    hide BitStep, Xor, ToWord, Plus, Raise, OfBits, Poly;
    var l := Plus(Raise(OfBits(c), 1), Only(b, {32}));
    var r := Plus(Only(c[0] != b, MODULUS), OfBits(BitStep(Xor(c, ToWord([b])))));
    forall e ensures Has(l, e) <==> Has(r, e) {
      if e >= 0 {
        ModulusAt(e);
        if e < 32 {
          StepAt(c, b, e);
        }
      }
    }
    Same(l, r);
  }

  lemma FeedLast(c: Word, bits: Bits, b: bool)
    ensures FeedBits(c, bits + [b]) == BitStep(Xor(FeedBits(c, bits), ToWord([b])))
  {
    hide BitStep, Xor;
    FeedConcat(c, bits, [b]);
    assert [b][..1] == [b] && [b][1..] == [];
  }

  /** The step of the induction: both sides of an equation times x, plus the new bit. */
  lemma DividesSnoc(start: Polynomial, bits: Bits, b: bool, q: Bits, t: bool, r: Polynomial, r': Polynomial)
    requires Divides(start, bits, q, r) && forall e :: Has(r', e) ==> e < 32
    requires Plus(Raise(r, 1), Only(b, {32})) == Plus(Only(t, MODULUS), r')
    ensures Divides(start, bits + [b], q + [t], r')
  {
    hide Plus, Raise, OfBits, Product, Has, Only, MODULUS;
    var n, product := |bits|, Product(q, MODULUS);
    var message := Raise(OfBits(bits), 32);
    ProductSnoc(q, t, MODULUS);
    BitUp(bits, b);
    RaiseMore(start, n);
    RaiseSum(message, Raise(start, n));
    RaiseSum(product, r);
    Regroup(Raise(message, 1), Raise(start, n + 1), Only(b, {32}),
            Raise(product, 1), Raise(r, 1), Only(t, MODULUS), r');
  }

  lemma BitUp(bits: Bits, b: bool)
    ensures Raise(OfBits(bits + [b]), 32) == Plus(Raise(Raise(OfBits(bits), 32), 1), Only(b, {32}))
  {
    hide Plus, Raise, OfBits, Has, Digit;
    var bit := Only(b, {32});
    var l, r := Raise(OfBits(bits + [b]), 32), Plus(Raise(Raise(OfBits(bits), 32), 1), bit);
    forall e ensures Has(l, e) <==> Has(r, e) {
      DigitSnoc(bits, b, e - 32);
      assert Has(Raise(Raise(OfBits(bits), 32), 1), e) <==> Has(Raise(OfBits(bits), 32), e - 1);
      assert e - 32 - 1 == e - 1 - 32;
    }
    Same(l, r);
  }

  lemma DigitSnoc(bits: Bits, b: bool, e: int)
    ensures Digit(bits + [b], e) <==> Digit(bits, e - 1) != Has(Only(b, {32}), e + 32)
  {
  }

  lemma Regroup(m: Polynomial, s: Polynomial, b: Polynomial, p: Polynomial,
                r: Polynomial, t: Polynomial, r': Polynomial)
    requires Plus(m, s) == Plus(p, r) && Plus(r, b) == Plus(t, r')
    ensures Plus(Plus(m, b), s) == Plus(Plus(p, t), r')
  {
    hide Plus, Has;
    forall e ensures Has(Plus(Plus(m, b), s), e) <==> Has(Plus(Plus(p, t), r'), e) {
      assert Has(Plus(m, s), e) == Has(Plus(p, r), e);
      assert Has(Plus(r, b), e) == Has(Plus(t, r'), e);
    }
    Same(Plus(Plus(m, b), s), Plus(Plus(p, t), r'));
  }

  /** The quotient: the bit that leaves the register at each step. */
  function Quotient(c: Word, bits: Bits): (q: Bits)
    ensures |q| == |bits|
    decreases |bits|
  {
    if bits == [] then [] else
      var front := bits[..|bits| - 1];
      Quotient(c, front) + [FeedBits(c, front)[0] != bits[|bits| - 1]]
  }

  lemma {:induction false} FeedDivides(c: Word, bits: Bits)
    ensures Divides(OfBits(c), bits, Quotient(c, bits), OfBits(FeedBits(c, bits)))
    decreases |bits|
  {
    hide Plus, Raise, Has, MODULUS, FeedBits;
    if bits == [] {
      NothingFed(c);
    } else {
      var front, b := bits[..|bits| - 1], bits[|bits| - 1];
      assert bits == front + [b];
      FeedDivides(c, front);
      FeedLast(c, front, b);
      var f := FeedBits(c, front);
      StepDivides(f, b);
      DividesSnoc(OfBits(c), front, b, Quotient(c, front), f[0] != b, OfBits(f), OfBits(FeedBits(c, bits)));
    }
  }

  lemma NothingFed(c: Word)
    ensures Divides(OfBits(c), [], [], OfBits(FeedBits(c, [])))
  {
    hide Plus, Raise, OfBits, MODULUS;
    var l, r := Plus(Raise(OfBits([]), 32), Raise(OfBits(c), 0)), Plus(Product([], MODULUS), OfBits(c));
    Same(l, r);
  }

  // ---- there is only one remainder

  predicate Any(q: Bits) { exists i :: 0 <= i < |q| && q[i] }

  /** A multiple of the modulus other than zero has a term of degree 32 or more. */
  lemma {:induction false} MultipleIsLarge(q: Bits) returns (e: int)
    ensures Any(q) ==> e >= 32 && Has(Product(q, MODULUS), e)
    ensures !Any(q) ==> Product(q, MODULUS) == {}
  {
    hide Plus, Raise;
    e := 32;
    if q != [] {
      var front := q[..|q| - 1];
      var f := MultipleIsLarge(front);
      if Any(front) {
        e := f + 1;
        assert Has(Raise(Product(front, MODULUS), 1), e) by {
          assert e - 1 == f;
        }
        ModulusAt(e);
      } else {
        assert Any(q) <==> q[|q| - 1];
        Same(Raise({}, 1), {});
        Same(Plus({}, {}), {});
        ModulusAt(32);
        assert !Has({}, 32);
      }
    }
  }

  function Differ(p: Bits, q: Bits): (r: Bits)
    requires |p| == |q|
    ensures |r| == |p| && forall i :: 0 <= i < |r| ==> r[i] == (p[i] != q[i])
  {
    seq(|p|, i requires 0 <= i < |p| => p[i] != q[i])
  }

  lemma {:induction false} ProductLinear(p: Bits, q: Bits, m: Polynomial)
    requires |p| == |q|
    ensures Product(Differ(p, q), m) == Plus(Product(p, m), Product(q, m))
    decreases |p|
  {
    hide Plus, Raise, Differ;
    var d := Differ(p, q);
    if p == [] {
      Same(Plus({}, {}), {});
    } else {
      var n := |p| - 1;
      assert d[..n] == Differ(p[..n], q[..n]);
      ProductLinear(p[..n], q[..n], m);
      var a, b := Product(p[..n], m), Product(q[..n], m);
      RaiseSum(a, b);
      AddDigits(Raise(a, 1), Raise(b, 1), m, p[n], q[n]);
    }
  }

  lemma AddDigits(a: Polynomial, b: Polynomial, m: Polynomial, s: bool, t: bool)
    ensures Plus(Plus(a, b), Only(s != t, m))
         == Plus(Plus(a, Only(s, m)), Plus(b, Only(t, m)))
  {
    hide Plus;
    Same(Plus(Plus(a, b), Only(s != t, m)),
         Plus(Plus(a, Only(s, m)), Plus(b, Only(t, m))));
  }

  /** Quotient and remainder of a division are determined. */
  lemma RemainderUnique(start: Polynomial, bits: Bits, p: Bits, q: Bits, r: Polynomial, r': Polynomial)
    requires Divides(start, bits, p, r) && Divides(start, bits, q, r')
    ensures p == q && r == r'
  {
    hide Plus, Raise, OfBits, Product, MODULUS;
    var d := Differ(p, q);
    ProductLinear(p, q, MODULUS);
    var a, b := Product(p, MODULUS), Product(q, MODULUS);
    var e := MultipleIsLarge(d);
    forall k ensures Has(Plus(a, b), k) <==> Has(r, k) != Has(r', k) {
      assert Has(Plus(a, r), k) == Has(Plus(b, r'), k);
    }
    assert !Any(d);
    forall i | 0 <= i < |p| ensures p[i] == q[i] {
      assert !d[i];
    }
    Same(r, r');
  }

  // ---- the checksum of a buffer

  /** The bits of a buffer in the order in which they enter the register: the low bit of each byte first. */
  function Sent(buf: seq<Byte>): (r: Bits)
    ensures |r| == 8 * |buf|
  {
    if buf == [] then [] else buf[0] + Sent(buf[1..])
  }

  lemma {:induction false} RegisterIsFeed(c: Word, buf: seq<Byte>)
    ensures Register(c, buf) == FeedBits(c, Sent(buf))
    decreases |buf|
  {
    hide FeedBits;
    if buf == [] {
      FeedNothing(c);
    } else {
      RegisterIsFeed(FeedBits(c, buf[0]), buf[1..]);
      FeedConcat(c, buf[0], Sent(buf[1..]));
    }
  }

  lemma FeedNothing(c: Word)
    ensures FeedBits(c, []) == c
  {
  }

  lemma BitsInjective(a: Word, b: Word)
    requires OfBits(a) == OfBits(b)
    ensures a == b
  {
    hide OfBits, Has;
    forall i | 0 <= i < 32 ensures a[i] == b[i] {
      assert Has(OfBits(a), 31 - i) == Has(OfBits(b), 31 - i);
      assert Digit(a, 31 - i) == a[i] && Digit(b, 31 - i) == b[i];
    }
  }

  /** The CRC is the one word whose complement is the remainder of the message, times x^32, with the complement of
      the starting CRC added to its first 32 terms, on division by the polynomial. */
  lemma CrcIsRemainder(crc: Word, buf: seq<Byte>, r: Word)
    ensures r == Crc(crc, buf)
      <==> exists q :: Divides(OfBits(Not(crc)), Sent(buf), q, OfBits(Not(r)))
  {
    hide Register, FeedBits, Divides, OfBits, Sent, Not;
    var s, bits := Not(crc), Sent(buf);
    RegisterIsFeed(s, buf);
    FeedDivides(s, bits);
    NotNot(Register(s, buf));
    if q :| Divides(OfBits(s), bits, q, OfBits(Not(r))) {
      RemainderUnique(OfBits(s), bits, q, Quotient(s, bits), OfBits(Not(r)), OfBits(FeedBits(s, bits)));
      BitsInjective(Not(r), Register(s, buf));
      NotNot(r);
    }
  }

  lemma NotNot(c: Word)
    ensures Not(Not(c)) == c
  {
  }
}
