/** What the conversions of usr/klibc/vsnprintf.c say about their arguments: the value an argument is taken as,
    the number its text spells, and where the text stands in its field. */
module Conversions {
  import opened Powers
  import opened Format
  import opened Printf
  import opened RoundTrip
  import opened Strntoumax

  // ---- the value of an argument

  /** v is what remains of the argument in an integer of the given rank: it differs from it by a multiple of the
      size of that type and lies within its range. Long has 32 bits. */
  ghost predicate SignedValue(bits: int, rank: int, v: int) {
    && (rank == -2 ==> -0x80 <= v < 0x80 && (bits - v) % 0x100 == 0)
    && (rank == -1 ==> -0x8000 <= v < 0x8000 && (bits - v) % 0x1_0000 == 0)
    && (rank == 0 || rank == 1 ==> -0x8000_0000 <= v < 0x8000_0000 && (bits - v) % 0x1_0000_0000 == 0)
    && (rank == 2 ==> -0x8000_0000_0000_0000 <= v < 0x8000_0000_0000_0000
                      && (bits - v) % 0x1_0000_0000_0000_0000 == 0)
  }

  ghost predicate UnsignedValue(bits: int, rank: int, v: int) {
    && (rank == -2 ==> 0 <= v < 0x100 && (bits - v) % 0x100 == 0)
    && (rank == -1 ==> 0 <= v < 0x1_0000 && (bits - v) % 0x1_0000 == 0)
    && (rank == 0 || rank == 1 ==> 0 <= v < 0x1_0000_0000 && (bits - v) % 0x1_0000_0000 == 0)
    && (rank == 2 ==> 0 <= v < 0x1_0000_0000_0000_0000 && (bits - v) % 0x1_0000_0000_0000_0000 == 0)
  }

  /** Every argument has a value of each rank; it is handed on in 64 bits, a negative one by its two's complement. */
  lemma SignedArgMeans(bits: int, rank: int) returns (v: int)
    requires -2 <= rank <= 2
    ensures SignedValue(bits, rank, v) && SignedArg(bits, rank) == if v < 0 then v + 0x1_0000_0000_0000_0000 else v
  {
    var m := Modulus(rank);
    v := if bits % m >= m / 2 then bits % m - m else bits % m;
    var q := if bits % m >= m / 2 then bits / m + 1 else bits / m;
    assert bits - v == q * m;
    MultipleMod(q, m);
  }

  lemma UnsignedArgMeans(bits: int, rank: int)
    requires -2 <= rank <= 2
    ensures UnsignedValue(bits, rank, UnsignedArg(bits, rank))
  {
    var m := Modulus(rank);
    assert bits - bits % m == bits / m * m;
    MultipleMod(bits / m, m);
  }

  /** There is only one such value, and an argument within range is its own. */
  lemma ValuesUnique(bits: int, rank: int, v: int, w: int)
    requires -2 <= rank <= 2
    ensures SignedValue(bits, rank, v) && SignedValue(bits, rank, w) ==> v == w
    ensures UnsignedValue(bits, rank, v) && UnsignedValue(bits, rank, w) ==> v == w
  {
    var m := Modulus(rank);
    if (bits - v) % m == 0 && (bits - w) % m == 0 {
      ModMultiple(bits - v, m);
      ModMultiple(bits - w, m);
      var d := (bits - w) / m - (bits - v) / m;
      assert v - w == d * m;
      MulPos(d, m);
    }
  }

  // ---- the number a text spells

  predicate IsSigned(c: char) { c == 'd' || c == 'i' }

  predicate IsPointer(c: char) { c == 'p' || c == 'P' }

  predicate IsNumeric(c: char) { IsSigned(c) || IsPointer(c) || c == 'u' || c == 'o' || c == 'x' || c == 'X' }

  function BaseOf(c: char): nat { if IsSigned(c) || c == 'u' then 10 else if c == 'o' then 8 else 16 }

  /** The value that a conversion is about. A pointer has 32 bits whatever the length modifiers. */
  ghost predicate Means(c: char, rank: int, bits: int, v: int) {
    if IsSigned(c) then SignedValue(bits, rank, v)
    else UnsignedValue(bits, if IsPointer(c) then 1 else rank, v)
  }

  /** The 64 bits of a value. */
  function Bits64(v: int): int { if v < 0 then v + 0x1_0000_0000_0000_0000 else v }

  /** The flags, and the precision, under which a conversion prints its number. */
  function FlagsOf(c: char, fl: Flags): Flags {
    fl.(signed := fl.signed || IsSigned(c), hash := fl.hash || IsPointer(c), upper := fl.upper || c == 'X' || c == 'P')
  }

  function PrecOf(c: char, prec: int): int { if IsPointer(c) then 8 else prec }

  lemma ArgMeans(c: char, rank: int, bits: int, v: int)
    requires -2 <= rank <= 2 && Means(c, rank, bits, v)
    ensures 0 <= Bits64(v) < U64 && (Bits64(v) == 0 <==> v == 0)
    ensures Bits64(v)
         == if IsSigned(c) then SignedArg(bits, rank) else UnsignedArg(bits, if IsPointer(c) then 1 else rank)
  {
    hide SignedArg, UnsignedArg, SignedValue, UnsignedValue;
    var r := if !IsSigned(c) && IsPointer(c) then 1 else rank;
    InRange(bits, r, v);
    if IsSigned(c) {
      var w := SignedArgMeans(bits, r);
      ValuesUnique(bits, r, v, w);
    } else {
      UnsignedArgMeans(bits, r);
      ValuesUnique(bits, r, v, UnsignedArg(bits, r));
    }
  }

  lemma ConvertIsIntText(c: char, fl: Flags, width: int, prec: int, rank: int, a: Arg, v: int)
    requires IsNumeric(c) && -2 <= rank <= 2 && Means(c, rank, a.bits, v)
    ensures 0 <= Bits64(v) < U64 && (Bits64(v) == 0 <==> v == 0)
    ensures Convert(c, fl, width, prec, rank, a)
         == (IntText(Bits64(v), FlagsOf(c, fl), BaseOf(c), width, PrecOf(c, prec)), 1)
  {
    hide IntText, SignedArg, UnsignedArg, Means, Bits64;
    ArgMeans(c, rank, a.bits, v);
  }

  lemma InRange(bits: int, rank: int, v: int)
    requires -2 <= rank <= 2
    ensures SignedValue(bits, rank, v) ==> -0x8000_0000_0000_0000 <= v < 0x8000_0000_0000_0000
    ensures UnsignedValue(bits, rank, v) ==> 0 <= v < 0x1_0000_0000_0000_0000
  {
  }

  /** The text of d and i reads back in base 10 as the signed value, that of u, o, x, X, p and P in base 10, 8 and
      16 as the unsigned value, with whatever flags, width and precision, if and only if no tick mark was printed or
      the value is zero. */
  lemma ConversionReadsBack(c: char, fl: Flags, width: int, prec: int, rank: int, a: Arg, v: int, u: int, e: nat)
    requires IsNumeric(c) && -2 <= rank <= 2 && Means(c, rank, a.bits, v)
    requires ReadsAs(Convert(c, fl, width, prec, rank, a).0, BaseOf(c), u, e)
    ensures 0 <= Bits64(v) < U64
    ensures u == Bits64(v) <==> v == 0 || !Ticked(Bits64(v), FlagsOf(c, fl), BaseOf(c), PrecOf(c, prec))
    ensures u == Bits64(v) <== !fl.tick
  {
    hide IntText, ReadsAs, Convert, Means, PrintedDigits;
    ConvertIsIntText(c, fl, width, prec, rank, a, v);
    PrintedReadsBack(Bits64(v), FlagsOf(c, fl), BaseOf(c), width, PrecOf(c, prec), BaseOf(c), u, e);
  }

  // ---- digits, tick marks and letters

  lemma ModDown(i: nat, m: nat)
    requires 0 < m <= i
    ensures i % m == (i - m) % m && i / m == (i - m) / m + 1
  {
    var q, r := (i - m) / m, (i - m) % m;
    assert i == (q + 1) * m + r;
    DivModUnique(i, m, q + 1, r);
  }

  /** Counted from the right, every place number skip is a tick mark, and the digits fill the others. */
  lemma {:induction false} GroupedAt(d: string, skip: nat, i: nat)
    requires skip > 0 && i < |Grouped(d, skip)|
    ensures var g := Grouped(d, skip);
            var c := g[|g| - 1 - i];
            if i % (skip + 1) == skip then c == '_'
            else 0 <= i - i / (skip + 1) < |d| && c == d[|d| - 1 - (i - i / (skip + 1))]
    decreases |d|
  {
    if |d| <= skip || i <= skip {
      DivModUnique(i, skip + 1, 0, i);
    } else {
      ModDown(i, skip + 1);
      GroupedAt(d[..|d| - skip], skip, i - (skip + 1));
    }
  }

  predicate Lower(c: char) { 'a' <= c <= 'z' }

  predicate Upper(c: char) { 'A' <= c <= 'Z' }

  predicate InCase(c: char, upper: bool) { if upper then !Lower(c) else !Upper(c) }

  lemma {:induction false} DigitsCase(v: nat, base: nat, n: nat, upper: bool)
    requires 2 <= base <= 16
    ensures forall i :: 0 <= i < n ==> InCase(Digits(v, base, n, upper)[i], upper)
    ensures forall i :: 0 <= i < n ==> Digits(v, base, n, upper)[i] != '_'
    decreases n
  {
    if n > 0 {
      DigitsCase(Front(v, base), base, n - 1, upper);
    }
  }

  /** Tick marks part the digits into groups of three, of four in base 16; without the flag there are none. Letters
      are those of the right case. */
  lemma BodyAt(val: nat, fl: Flags, base: nat, prec: int, i: nat)
    requires val < U64 && 2 <= base <= 16 && i < |Body(val, fl, base, prec)|
    ensures var b := Body(val, fl, base, prec);
            var c := b[|b| - 1 - i];
            && (c == '_' <==> fl.tick && if base == 16 then i % 5 == 4 else i % 4 == 3)
            && InCase(c, fl.upper)
  {
    hide Grouped, Digits, DigitCount, Magnitude, InCase;
    var mag := Magnitude(val, fl);
    var n := PrintedDigits(mag, fl, base, prec);
    var d, skip := Digits(mag, base, n, fl.upper), TickSkip(fl, base, n);
    DigitsCase(mag, base, n, fl.upper);
    GroupedAt(d, skip, i);
    TickInCase(fl.upper);
    if !fl.tick {
      Ungrouped(d, n);
      DivModUnique(i, n + 1, 0, i);
    }
  }

  lemma Ungrouped(d: string, skip: nat)
    requires 0 < |d| <= skip
    ensures Grouped(d, skip) == d
  {
  }

  lemma TickInCase(upper: bool)
    ensures InCase('_', upper)
  {
  }

  // ---- the digits of a number

  /** The digits write the magnitude; there are as many as the precision asks for and at least one, and no more
      than that unless they are needed or %#o wants a zero in front. */
  lemma BodyDigits(val: nat, fl: Flags, base: nat, prec: int)
    requires val < U64 && 2 <= base <= 16 && !fl.tick
    ensures var b := Body(val, fl, base, prec);
            && |b| >= Max(prec, 1) && Numeral(b, base) == Magnitude(val, fl)
            && (forall i :: 0 <= i < |b| ==> DigitIn(b[i], base))
            && (b[0] == '0' && |b| > Max(prec, 1) ==> fl.hash && base == 8)
            && (fl.hash && base == 8 ==> b[0] == '0')
  {
    hide DigitCount, Digits, Magnitude, Numeral, Grouped, DigitIn;
    var mag := Magnitude(val, fl);
    var n := PrintedDigits(mag, fl, base, prec);
    Ungrouped(Digits(mag, base, n, fl.upper), n);
    DigitsRead(mag, base, n, fl.upper);
    DigitsAreDigits(mag, base, n, fl.upper);
    LeadingDigit(mag, base, n, fl.upper);
  }

  // ---- the place of a text in its field

  /** The text is head and body, filled up to the width: with spaces behind, with spaces in front, or with zeros
      between the two. */
  ghost predicate Placed(text: string, width: int, head: string, body: string, left: bool, zeros: bool) {
    var n := |head| + |body|;
    && |text| == Max(width, n)
    && (left ==> text[..n] == head + body && forall i :: n <= i < |text| ==> text[i] == ' ')
    && (!left && !zeros ==>
          text[|text| - n..] == head + body && forall i :: 0 <= i < |text| - n ==> text[i] == ' ')
    && (!left && zeros ==>
          && text[..|head|] == head && text[|text| - |body|..] == body
          && forall i :: |head| <= i < |text| - |body| ==> text[i] == '0')
  }

  /** What stands before the digits: the sign, and the mark of base 16. */
  function Head(c: char, fl: Flags, v: int): string {
    (if IsSigned(c) && v < 0 then "-" else if fl.plus then "+" else if fl.space then " " else "")
    + (if c == 'P' || (c == 'X' && fl.hash) then "0X" else if c == 'p' || (c == 'x' && fl.hash) then "0x" else "")
  }

  lemma IntTextPlaced(val: nat, fl: Flags, base: nat, width: int, prec: int)
    requires val < U64 && 2 <= base <= 16
    ensures Placed(IntText(val, fl, base, width, prec), width, Sign(val, fl) + Prefix(fl, base),
                   Body(val, fl, base, prec), fl.minus, fl.zero)
  {
    hide Sign, Prefix, Body;
    var sign, prefix, body := Sign(val, fl), Prefix(fl, base), Body(val, fl, base, prec);
    assert sign + prefix + body == (sign + prefix) + body;
  }

  /** The text of an integer conversion, as a directive of a format asks for it. */
  lemma NumberPlaced(c: char, fl: Flags, width: int, prec: int, rank: int, a: Arg, v: int)
    requires IsNumeric(c) && -2 <= rank <= 2 && Means(c, rank, a.bits, v) && !fl.signed && !fl.upper
    ensures 0 <= Bits64(v) < U64
    ensures Placed(Convert(c, fl, width, prec, rank, a).0, width, Head(c, fl, v),
                   Body(Bits64(v), FlagsOf(c, fl), BaseOf(c), PrecOf(c, prec)), fl.minus, fl.zero)
  {
    hide IntText, Convert, Body, Placed, SignedValue, UnsignedValue;
    ConvertIsIntText(c, fl, width, prec, rank, a, v);
    InRange(a.bits, rank, v);
    InRange(a.bits, 1, v);
    IntTextPlaced(Bits64(v), FlagsOf(c, fl), BaseOf(c), width, PrecOf(c, prec));
  }

  /** A string conversion shows at most prec characters of the string, that of a null pointer being "(null)"; a
      character is a string of one, of its low eight bits. */
  function Shows(c: char, prec: int, a: Arg): string
    requires prec >= -1
  {
    var s := if c == 'c' then [(a.bits % 256) as char] else if a.text.Some? then a.text.value else "(null)";
    if prec >= 0 && prec < |s| then s[..prec] else s
  }

  lemma StringTextPlaced(s: string, fl: Flags, width: int, prec: int)
    requires prec >= -1
    ensures Placed(StringText(s, fl, width, prec), width, "", if prec >= 0 && prec < |s| then s[..prec] else s,
                   fl.minus, fl.zero)
  {
    hide Pad;
    var t := if prec != -1 && |s| > prec then s[..prec] else s;
    assert "" + t == t;
    PadAt(if fl.zero && !fl.minus then '0' else ' ', width - |t|);
  }

  lemma PadAt(c: char, n: int)
    ensures forall i :: 0 <= i < |Pad(c, n)| ==> Pad(c, n)[i] == c
  {
  }

  lemma StringPlaced(c: char, fl: Flags, width: int, prec: int, rank: int, a: Arg)
    requires (c == 's' || c == 'c') && prec >= -1
    ensures Placed(Convert(c, fl, width, prec, rank, a).0, width, "", Shows(c, prec, a), fl.minus, fl.zero)
    ensures Convert(c, fl, width, prec, rank, a).1 == 1
  {
    hide IntText, StringText, Placed;
    StringTextPlaced(if c == 'c' then [CharArg(a.bits)] else StringArg(a), fl, width, prec);
  }
}
