/** strntoumax of usr/klibc/strntoumax.c, and the round trip through format_int. */
module Strntoumax {
  import opened Powers
  import opened Format
  import opened Printf

  function DigitVal(c: char): int {
    if '0' <= c <= '9' then c as int - '0' as int
    else if 'A' <= c <= 'Z' then c as int - 'A' as int + 10
    else if 'a' <= c <= 'z' then c as int - 'a' as int + 10
    else -1
  }

  /** Digits and letters in either case are worth their place in this row, and no other character is a digit. */
  const ROW: string := "0123456789abcdefghijklmnopqrstuvwxyz"

  lemma DigitValMeans(c: char)
    ensures 0 <= DigitVal(c) < 36 ==>
      c == ROW[DigitVal(c)] || ('A' <= c <= 'Z' && ROW[DigitVal(c)] as int == c as int + 32)
    ensures DigitVal(c) == -1 <==> !('0' <= c <= '9' || 'a' <= c <= 'z' || 'A' <= c <= 'Z')
    ensures -1 <= DigitVal(c) < 36
  {
    if '0' <= c <= '9' {
      RowDigits(c as int - 48);
    } else if 'A' <= c <= 'Z' {
      RowLetters(c as int - 65);
    } else if 'a' <= c <= 'z' {
      RowLetters(c as int - 97);
    }
  }

  lemma RowDigits(d: nat)
    requires d < 10
    ensures ROW[d] as int == 48 + d
  {
  }

  lemma RowLetters(d: nat)
    requires d < 26
    ensures ROW[10 + d] as int == 97 + d
  {
  }

  predicate DigitIn(c: char, base: int) { 0 <= DigitVal(c) < base }

  /** isspace of the bundled ctype table, in which backspace counts as a space. */
  predicate IsSpace(c: char) { 8 <= c as int <= 13 || c == ' ' || c as int == 160 }

  lemma SpaceCodes(c: char)
    ensures IsSpace(c) <==> c as int in {8, 9, 10, 11, 12, 13, 32, 160}
  {
  }

  // ---- what a numeral means

  /** The number written by s in the given base, without bound. */
  function Numeral(s: string, base: int): int {
    if s == "" then 0 else Numeral(s[..|s| - 1], base) * base + DigitVal(s[|s| - 1])
  }

  /** Spaces reach up to e and no further. */
  ghost predicate EndOfSpaces(s: string, e: nat) {
    && e <= |s| && (forall i :: 0 <= i < e ==> IsSpace(s[i])) && (e < |s| ==> !IsSpace(s[e]))
  }

  /** Digits reach from p up to e and no further. */
  ghost predicate EndOfDigits(s: string, p: nat, base: int, e: nat) {
    && p <= e <= |s| && (forall i :: p <= i < e ==> DigitIn(s[i], base)) && (e < |s| ==> !DigitIn(s[e], base))
  }

  predicate HexPrefix(s: string, p: nat) { p + 2 <= |s| && s[p] == '0' && (s[p + 1] == 'x' || s[p + 1] == 'X') }

  /** The base a numeral at p is read in, and where its digits start. */
  function Radix(s: string, p: nat, base: int): (r: (int, nat))
    requires p <= |s|
    ensures p <= r.1 <= |s|
  {
    if (base == 0 || base == 16) && HexPrefix(s, p) then (16, p + 2)
    else if base == 0 then (if p < |s| && s[p] == '0' then (8, p + 1) else (10, p))
    else (base, p)
  }

  predicate HasSign(s: string, p: nat) { p < |s| && (s[p] == '-' || s[p] == '+') }

  /** s reads as v, and the reading ends at e: spaces, a sign, a prefix, and as many digits as there are. The
      value is the exact number, reduced modulo 2^64. */
  ghost predicate ReadsAs(s: string, base: int, v: int, e: nat) {
    exists a: nat | EndOfSpaces(s, a) :: ReadsFrom(s, a, base, v, e)
  }

  /** The value of a numeral in 64 bits, negated modulo 2^64 after a minus sign. */
  function Signed(minus: bool, v: int): (r: nat)
  {
    (if minus then -v else v) % U64
  }

  ghost predicate ReadsFrom(s: string, a: nat, base: int, v: int, e: nat)
    requires a <= |s|
  {
    var (radix, start) := Radix(s, if HasSign(s, a) then a + 1 else a, base);
    && EndOfDigits(s, start, radix, e)
    && v == Signed(HasSign(s, a) && s[a] == '-', Numeral(s[start..e], radix))
  }

  lemma ReadsFromParts(s: string, a: nat, p: nat, asked: int, e: nat, base: int, start: nat, v: int, minus: bool)
    requires EndOfSpaces(s, a) && p == (if HasSign(s, a) then a + 1 else a) && Radix(s, p, asked) == (base, start)
    requires EndOfDigits(s, start, base, e) && Numeral(s[start..e], base) == v
    requires minus <==> HasSign(s, a) && s[a] == '-'
    ensures ReadsAs(s, asked, Signed(minus, v), e)
  {
    hide Numeral, Radix, HasSign, IsSpace, DigitIn, Signed;
    assert ReadsFrom(s, a, asked, Signed(minus, v), e);
  }

  lemma SpacesUnique(s: string, a: nat, b: nat)
    requires EndOfSpaces(s, a) && EndOfSpaces(s, b)
    ensures a == b
  {
    hide IsSpace;
  }

  lemma DigitsUnique(s: string, p: nat, base: int, a: nat, b: nat)
    requires EndOfDigits(s, p, base, a) && EndOfDigits(s, p, base, b)
    ensures a == b
  {
    hide DigitIn;
  }

  /** There is only one reading. */
  lemma ReadingUnique(s: string, base: int, v: int, e: nat, w: int, f: nat)
    requires ReadsAs(s, base, v, e) && ReadsAs(s, base, w, f)
    ensures v == w && e == f
  {
    hide IsSpace, EndOfDigits, HasSign, Radix, Numeral, Signed;
    var a: nat :| EndOfSpaces(s, a) && ReadsFrom(s, a, base, v, e);
    var b: nat :| EndOfSpaces(s, b) && ReadsFrom(s, b, base, w, f);
    SpacesUnique(s, a, b);
    var (radix, start) := Radix(s, if HasSign(s, a) then a + 1 else a, base);
    DigitsUnique(s, start, radix, e, f);
  }

  // ---- strntoumax

  /** The characters strntoumax looks at: at most n, and none from a NUL on. */
  ghost predicate Visible(s: string, n: nat, t: string) {
    && t <= s && |t| <= n && (forall c | c in t :: c != '\0')
    && (|t| == n || (|t| < |s| && s[|t|] == '\0'))
  }

  ghost function Seen(s: string, n: nat): (t: string)
    requires n <= |s| || '\0' in s
    ensures Visible(s, n, t)
  {
    if n == 0 || s[0] == '\0' then "" else [s[0]] + Seen(s[1..], n - 1)
  }

  lemma MulAddMod(a: int, b: int, d: int)
    ensures ((a % U64) * b + d) % U64 == (a * b + d) % U64
  {
    var q, r := a / U64, a % U64;
    assert a * b == (q * b) * U64 + r * b;
    var x := r * b + d;
    assert a * b + d == (q * b) * U64 + x;
    assert (q * b + x / U64) * U64 == (q * b) * U64 + (x / U64) * U64;
    DivModUnique(a * b + d, U64, q * b + x / U64, x % U64);
  }

  lemma SignedMod(a: int)
    ensures a % U64 == Signed(false, a) < U64
    ensures Negate(a % U64) == Signed(true, a)
  {
  }

  /** The accumulator after one more digit. */
  function Extend(v: nat, base: int, c: char): (r: nat)
  {
    (v * base + DigitVal(c)) % U64
  }

  lemma ExtendIsNumeral(t: string, start: nat, p: nat, base: int, v: nat)
    requires start <= p < |t| && v == Numeral(t[start..p], base) % U64
    ensures Extend(v, base, t[p]) == Numeral(t[start..p + 1], base) % U64
  {
    var u := t[start..p + 1];
    assert u[..|u| - 1] == t[start..p];
    assert Numeral(u, base) == Numeral(t[start..p], base) * base + DigitVal(t[p]);
    hide Numeral, DigitVal;
    MulAddMod(Numeral(t[start..p], base), base, DigitVal(t[p]));
  }

  /** The digit loop, with the accumulator wrapping around. */
  method ReadDigits(s: string, n: nat, start: nat, base: int, ghost t: string) returns (v: nat, p: nat)
    requires Visible(s, n, t) && start <= |t|
    ensures start <= p <= |t| && EndOfDigits(t, start, base, p) && v == Numeral(t[start..p], base) % U64
  {
    assert !DigitIn('\0', base);
    assert Numeral(t[start..start], base) == 0;
    hide DigitIn, Numeral, Extend;
    v, p := 0, start;
    while p < n && DigitIn(s[p], base)
      invariant start <= p <= |t| && forall i :: start <= i < p ==> DigitIn(t[i], base)
      invariant v == Numeral(t[start..p], base) % U64
    {
      ExtendIsNumeral(t, start, p, base, v);
      v := Extend(v, base, s[p]);
      p := p + 1;
    }
  }

  method SkipSpaces(s: string, n: nat, ghost t: string) returns (p: nat)
    requires Visible(s, n, t)
    ensures EndOfSpaces(t, p)
  {
    p := 0;
    while p < n && IsSpace(s[p])
      invariant p <= |t| && forall i :: 0 <= i < p ==> IsSpace(t[i])
    {
      p := p + 1;
    }
  }

  /** The base and its prefix. */
  method ReadRadix(s: string, n: nat, start: nat, base: int, ghost t: string) returns (radix: int, p: nat)
    requires Visible(s, n, t) && start <= |t|
    ensures (radix, p) == Radix(t, start, base)
  {
    radix, p := base, start;
    if base == 0 {
      if n - p >= 2 && s[p] == '0' && (s[p + 1] == 'x' || s[p + 1] == 'X') {
        p, radix := p + 2, 16;
      } else if n - p >= 1 && s[p] == '0' {
        p, radix := p + 1, 8;
      } else {
        radix := 10;
      }
    } else if base == 16 {
      if n - p >= 2 && s[p] == '0' && (s[p + 1] == 'x' || s[p + 1] == 'X') {
        p := p + 2;
      }
    }
  }

  /** An optional sign. */
  method ReadSign(s: string, n: nat, a: nat, ghost t: string) returns (minus: bool, p: nat)
    requires Visible(s, n, t) && a <= |t|
    ensures p == (if HasSign(t, a) then a + 1 else a) && p <= |t|
    ensures minus <==> HasSign(t, a) && t[a] == '-'
  {
    minus, p := false, a;
    if p < n {
      var c := s[p];
      if c == '-' || c == '+' {
        minus := c == '-';
        p := p + 1;
      }
    }
  }

  function Negate(v: nat): (r: nat)
    ensures r < U64
  {
    (U64 - v) % U64
  }

  /** strntoumax over the first n characters of s, or fewer if a NUL comes first. */
  method Strntoumax(s: string, n: nat, base: int) returns (v: nat, end: nat)
    requires n <= |s| || '\0' in s
    ensures ReadsAs(Seen(s, n), base, v, end) && v < U64
  {
    hide Numeral, Seen, IsSpace, EndOfDigits, Radix, Signed, ReadsAs, Visible, HasSign, Negate;
    ghost var t := Seen(s, n);
    var a := SkipSpaces(s, n, t);
    var minus, p := ReadSign(s, n, a, t);
    var radix, start := ReadRadix(s, n, p, base, t);
    v, end := ReadDigits(s, n, start, radix, t);
    ghost var u := Numeral(t[start..end], radix);
    SignedMod(u);
    if minus {
      v := Negate(v);
    }
    ReadsFromParts(t, a, p, base, end, radix, start, u, minus);
  }
}
