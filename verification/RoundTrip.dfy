/** Reading back what format_int prints: strntoumax inverts every conversion of an integer, except where tick
    marks cut the digits apart. */
module RoundTrip {
  import opened Format
  import opened Printf
  import opened Strntoumax

  // ---- digits and the number they write

  lemma DigitCharReads(d: nat, upper: bool)
    requires d < 16
    ensures DigitVal(DigitChar(d, upper)) == d
  {
  }

  lemma NumeralAppend(s: string, c: char, base: int)
    ensures Numeral(s + [c], base) == Numeral(s, base) * base + DigitVal(c)
  {
    assert (s + [c])[..|s|] == s;
  }

  lemma FrontLast(v: nat, base: nat)
    requires base >= 2
    ensures Front(v, base) * base + Last(v, base) == v
  {
  }

  lemma {:induction false} DigitsRead(v: nat, base: nat, n: nat, upper: bool)
    requires 2 <= base <= 16 && DigitCount(v, base) <= n
    ensures Numeral(Digits(v, base, n, upper), base) == v
    decreases n
  {
    if n > 0 {
      assert Front(0, base) == 0 && DigitCount(0, base) == 0;
      var d, l := Front(v, base), Last(v, base);
      FrontLast(v, base);
      assert Digits(v, base, n, upper) == Digits(d, base, n - 1, upper) + [DigitChar(l, upper)];
      assert DigitCount(d, base) <= n - 1;
      hide Front, Last, Digits, DigitCount, DigitChar, Numeral;
      DigitsRead(d, base, n - 1, upper);
      NumeralAppend(Digits(d, base, n - 1, upper), DigitChar(l, upper), base);
      DigitCharReads(l, upper);
    }
  }

  lemma {:induction false} DigitsAreDigits(v: nat, base: nat, n: nat, upper: bool)
    requires 2 <= base <= 16
    ensures forall i :: 0 <= i < n ==> DigitIn(Digits(v, base, n, upper)[i], base)
    decreases n
  {
    if n > 0 {
      DigitsAreDigits(Front(v, base), base, n - 1, upper);
      DigitCharReads(Last(v, base), upper);
    }
  }

  /** A zero leads exactly if there is more room than digits. */
  lemma {:induction false} LeadingDigit(v: nat, base: nat, n: nat, upper: bool)
    requires 2 <= base <= 16 && n > 0 && DigitCount(v, base) <= n
    ensures Digits(v, base, n, upper)[0] == '0' <==> DigitCount(v, base) < n
    decreases n
  {
    var d, l := Front(v, base), Last(v, base);
    FrontLast(v, base);
    assert Digits(v, base, n, upper) == Digits(d, base, n - 1, upper) + [DigitChar(l, upper)];
    if n == 1 {
      assert DigitChar(l, upper) == '0' <==> l == 0;
      assert DigitCount(d, base) == 0 && d == 0;
    } else {
      assert DigitCount(0, base) == 0 && Front(0, base) == 0;
      LeadingDigit(d, base, n - 1, upper);
    }
  }

  /** v without its last k digits. */
  function Fronts(v: nat, base: nat, k: nat): (r: nat)
    requires base >= 2
    ensures r <= v && (v > 0 && k > 0 ==> r < v)
    decreases k
  {
    if k == 0 then v else Fronts(Front(v, base), base, k - 1)
  }

  lemma {:induction false} DigitsPrefix(v: nat, base: nat, n: nat, h: nat, upper: bool)
    requires 2 <= base <= 16 && h <= n
    ensures Digits(v, base, n, upper)[..h] == Digits(Fronts(v, base, n - h), base, h, upper)
    decreases n
  {
    if h < n {
      DigitsPrefix(Front(v, base), base, n - 1, h, upper);
    }
  }

  lemma {:induction false} FrontsCount(v: nat, base: nat, k: nat)
    requires base >= 2
    ensures DigitCount(Fronts(v, base, k), base) == if DigitCount(v, base) > k then DigitCount(v, base) - k else 0
    decreases k
  {
    if k > 0 {
      assert Front(0, base) == 0;
      FrontsCount(Front(v, base), base, k - 1);
    }
  }

  /** The digits before the first tick mark. */
  function FirstGroup(n: nat, skip: nat): (h: nat)
    requires n > 0 && skip > 0
    ensures 1 <= h <= n && (h == n <==> n <= skip)
  {
    if n <= skip then n else FirstGroup(n - skip, skip)
  }

  lemma {:induction false} GroupedHead(d: string, skip: nat)
    requires |d| > 0 && skip > 0
    ensures var h, g := FirstGroup(|d|, skip), Grouped(d, skip);
      |g| >= h && g[..h] == d[..h] && (h < |g| ==> g[h] == '_')
    decreases |d|
  {
    if |d| > skip {
      var e := d[..|d| - skip];
      GroupedHead(e, skip);
      var h, g := FirstGroup(|e|, skip), Grouped(e, skip);
      assert Grouped(d, skip)[..h] == g[..h] == d[..h];
    } else {
      assert d[..|d|] == d;
    }
  }

  lemma {:induction false} LeadingZeros(k: int, s: string, base: int)
    ensures Numeral(Pad('0', k) + s, base) == Numeral(s, base)
    decreases Max(0, k) + |s|
  {
    if s != "" {
      var t := s[..|s| - 1];
      LeadingZeros(k, t, base);
      assert Pad('0', k) + s == (Pad('0', k) + t) + [s[|s| - 1]];
      NumeralAppend(Pad('0', k) + t, s[|s| - 1], base);
    } else if k > 0 {
      LeadingZeros(k - 1, s, base);
      assert Pad('0', k) + s == (Pad('0', k - 1) + s) + ['0'];
      NumeralAppend(Pad('0', k - 1) + s, '0', base);
    }
  }

  // ---- reading the parts

  ghost predicate AllDigits(ds: string, base: int) { forall c | c in ds :: DigitIn(c, base) }

  predicate SignText(sign: string) { sign == "" || sign == " " || sign == "+" || sign == "-" }

  /** The base `asked` of strntoumax makes it read these parts in base `base`. */
  predicate Announces(asked: int, base: nat, prefix: string, ds: string)
    requires ds != ""
  {
    || (asked == base && prefix == "")
    || ((asked == 0 || asked == base) && base == 16 && (prefix == "0x" || prefix == "0X"))
    || (asked == 0 && prefix == "" && base == 8 && ds[0] == '0')
    || (asked == 0 && prefix == "" && base == 10 && ds[0] != '0')
  }

  /** Reading digits of the base stops in front of this text, which does not make a hexadecimal prefix either. */
  predicate Stops(rest: string, base: int) {
    rest != "" ==> !DigitIn(rest[0], base) && rest[0] != 'x' && rest[0] != 'X'
  }

  lemma SpacesEnd(s: string, k: int, sign: string, tail: string)
    requires SignText(sign) && tail != "" && !IsSpace(tail[0]) && s == Pad(' ', k) + sign + tail
    ensures EndOfSpaces(s, Max(0, k) + if sign == " " then 1 else 0)
  {
    assert !IsSpace('+') && !IsSpace('-') && IsSpace(' ');
  }

  lemma SignOfParts(s: string, k: int, sign: string, tail: string, a: nat)
    requires SignText(sign) && tail != "" && tail[0] != '-' && tail[0] != '+' && s == Pad(' ', k) + sign + tail
    requires a == Max(0, k) + if sign == " " then 1 else 0
    ensures (if HasSign(s, a) then a + 1 else a) == |Pad(' ', k) + sign|
    ensures HasSign(s, a) && s[a] == '-' <==> sign == "-"
  {
  }

  lemma RadixOfParts(s: string, p: nat, prefix: string, ds: string, rest: string, asked: int, base: nat)
    requires 2 <= base <= 16 && ds != "" && AllDigits(ds, base) && Announces(asked, base, prefix, ds)
    requires Stops(rest, base) && p <= |s| && s[p..] == prefix + ds + rest
    ensures Radix(s, p, asked) == (base, p + |prefix| + if asked == 0 && base == 8 then 1 else 0)
  {
    var t := s[p..];
    assert DigitVal('x') == 33 == DigitVal('X');
    assert |ds| > 1 ==> ds[1] in ds;
    if prefix == "" {
      assert s[p] == t[0] == ds[0];
      assert |t| > 1 ==> s[p + 1] == t[1] == if |ds| > 1 then ds[1] else rest[0];
      assert !HexPrefix(s, p);
    } else {
      assert s[p] == t[0] == prefix[0] && s[p + 1] == t[1] == prefix[1];
    }
  }

  lemma DigitsEnd(s: string, start: nat, ds: string, rest: string, base: int, from: nat)
    requires AllDigits(ds, base) && (rest != "" ==> !DigitIn(rest[0], base)) && from <= |ds|
    requires start <= |s| && s[start..] == ds + rest
    ensures EndOfDigits(s, start + from, base, start + |ds|) && s[start + from..start + |ds|] == ds[from..]
  {
    hide DigitIn;
    var t := s[start..];
    forall i | start + from <= i < start + |ds| ensures DigitIn(s[i], base) {
      assert s[i] == t[i - start] == ds[i - start];
    }
    assert rest != "" ==> s[start + |ds|] == t[|ds|] == rest[0];
  }

  /** How strntoumax reads a text whose digits start at p. */
  lemma ReadFrom(s: string, a: nat, p: nat, minus: bool, prefix: string, ds: string, rest: string, asked: int, base: nat)
    requires 2 <= base <= 16 && ds != "" && AllDigits(ds, base) && Announces(asked, base, prefix, ds)
    requires Stops(rest, base) && p + |prefix| <= |s|
    requires s[p..] == prefix + ds + rest && s[p + |prefix|..] == ds + rest
    requires EndOfSpaces(s, a) && p == (if HasSign(s, a) then a + 1 else a) && (HasSign(s, a) && s[a] == '-' <==> minus)
    ensures ReadsAs(s, asked, Signed(minus, Numeral(ds, base)), p + |prefix| + |ds|)
  {
    hide Numeral, EndOfDigits, IsSpace, Radix, HasSign, AllDigits, DigitVal, ReadsAs, Signed;
    var start, from := p + |prefix|, if asked == 0 && base == 8 then 1 else 0;
    RadixOfParts(s, p, prefix, ds, rest, asked, base);
    DigitsEnd(s, start, ds, rest, base, from);
    SameNumeral(ds, base, from);
    ReadsFromParts(s, a, p, asked, start + |ds|, base, start + from, Numeral(ds, base), minus);
  }

  /** Padding, sign, prefix, digits and something else: how strntoumax reads it. */
  lemma ReadParts(k: int, sign: string, prefix: string, ds: string, rest: string, asked: int, base: nat)
    requires 2 <= base <= 16 && SignText(sign) && ds != "" && AllDigits(ds, base) && Announces(asked, base, prefix, ds)
    requires Stops(rest, base)
    ensures var before := Pad(' ', k) + sign + prefix;
      ReadsAs(before + ds + rest, asked, Signed(sign == "-", Numeral(ds, base)), |before| + |ds|)
  {
    hide Pad, Numeral, EndOfSpaces, Radix, HasSign, AllDigits, DigitVal, ReadsAs, Signed, SignText, Stops;
    var lead := Pad(' ', k) + sign;
    var tail, a := prefix + ds + rest, Max(0, k) + if sign == " " then 1 else 0;
    var s := lead + prefix + ds + rest;
    FirstOfParts(prefix, ds, rest, asked, base);
    Slices(lead, prefix, ds, rest);
    SpacesEnd(s, k, sign, tail);
    SignOfParts(s, k, sign, tail, a);
    ReadFrom(s, a, |lead|, sign == "-", prefix, ds, rest, asked, base);
  }

  lemma Slices(lead: string, prefix: string, ds: string, rest: string)
    ensures var s := lead + prefix + ds + rest;
      && s == lead + (prefix + ds + rest)
      && s[|lead|..] == prefix + ds + rest && s[|lead| + |prefix|..] == ds + rest
  {
  }

  lemma FirstOfParts(prefix: string, ds: string, rest: string, asked: int, base: nat)
    requires ds != "" && AllDigits(ds, base) && Announces(asked, base, prefix, ds)
    ensures var c := (prefix + ds + rest)[0]; !IsSpace(c) && c != '-' && c != '+'
  {
    assert ds[0] in ds;
  }

  lemma SameNumeral(ds: string, base: int, from: nat)
    requires from <= |ds| && from <= 1 && (from == 1 ==> ds[0] == '0')
    ensures Numeral(ds[from..], base) == Numeral(ds, base)
  {
    assert Pad('0', from) + ds[from..] == ds;
    LeadingZeros(from, ds[from..], base);
  }

  // ---- the round trip

  /** What a reader gets for the magnitude: the digits up to the first tick mark. */
  function Shown(val: nat, fl: Flags, base: nat, prec: int): nat
    requires val < U64 && 2 <= base <= 16
  {
    var mag := Magnitude(val, fl);
    var n := PrintedDigits(mag, fl, base, prec);
    Fronts(mag, base, n - FirstGroup(n, TickSkip(fl, base, n)))
  }

  lemma BodyIsGrouped(val: nat, fl: Flags, base: nat, prec: int)
    requires val < U64 && 2 <= base <= 16
    ensures var mag := Magnitude(val, fl);
      var n := PrintedDigits(mag, fl, base, prec);
      var skip := TickSkip(fl, base, n);
      && n > 0 && skip > 0 && DigitCount(mag, base) <= n
      && Body(val, fl, base, prec) == Grouped(Digits(mag, base, n, fl.upper), skip)
      && Shown(val, fl, base, prec) == Fronts(mag, base, n - FirstGroup(n, skip))
  {
    hide Grouped, Digits, Fronts, FirstGroup, DigitCount, Magnitude;
  }

  /** The digits up to the first tick mark write the leading part of the number. */
  lemma FirstGroupReads(mag: nat, base: nat, n: nat, skip: nat, upper: bool)
    requires 2 <= base <= 16 && n > 0 && skip > 0 && DigitCount(mag, base) <= n
    ensures var h, g := FirstGroup(n, skip), Grouped(Digits(mag, base, n, upper), skip);
      && 0 < h <= |g| && AllDigits(g[..h], base) && (h < |g| ==> g[h] == '_')
      && Numeral(g[..h], base) == Fronts(mag, base, n - h)
  {
    hide Digits, DigitCount, Grouped, Fronts, FirstGroup, Numeral, DigitIn;
    var d, h := Digits(mag, base, n, upper), FirstGroup(n, skip);
    GroupedHead(d, skip);
    DigitsAreDigits(mag, base, n, upper);
    DigitsPrefix(mag, base, n, h, upper);
    FrontsCount(mag, base, n - h);
    DigitsRead(Fronts(mag, base, n - h), base, h, upper);
  }

  /** The digit text splits into what is read and what is not. */
  lemma BodyParts(val: nat, fl: Flags, base: nat, prec: int) returns (ds: string, rest: string)
    requires val < U64 && 2 <= base <= 16
    ensures Body(val, fl, base, prec) == ds + rest && ds != "" && AllDigits(ds, base)
    ensures rest != "" ==> rest[0] == '_'
    ensures Numeral(ds, base) == Shown(val, fl, base, prec)
  {
    hide Body, Shown, Magnitude, PrintedDigits, TickSkip, Digits, DigitCount, Grouped, Fronts, FirstGroup, Numeral, AllDigits;
    var mag := Magnitude(val, fl);
    var n := PrintedDigits(mag, fl, base, prec);
    var skip := TickSkip(fl, base, n);
    BodyIsGrouped(val, fl, base, prec);
    FirstGroupReads(mag, base, n, skip, fl.upper);
    var body, h := Body(val, fl, base, prec), FirstGroup(n, skip);
    ds, rest := body[..h], body[h..];
  }

  /** %#o leaves room for a leading zero. */
  lemma OctalPrefix(val: nat, fl: Flags, prec: int)
    requires val < U64 && fl.hash
    ensures |Body(val, fl, 8, prec)| > 0 && Body(val, fl, 8, prec)[0] == '0'
  {
    hide Body, Shown, Digits, Grouped, Fronts, FirstGroup, Magnitude, DigitCount;
    var mag := Magnitude(val, fl);
    var n := PrintedDigits(mag, fl, 8, prec);
    var skip := TickSkip(fl, 8, n);
    var d := Digits(mag, 8, n, fl.upper);
    BodyIsGrouped(val, fl, 8, prec);
    GroupedHead(d, skip);
    assert Grouped(d, skip)[..FirstGroup(n, skip)][0] == d[..FirstGroup(n, skip)][0];
    LeadingDigit(mag, 8, n, fl.upper);
  }

  lemma ZerosAreDigits(z: int, ds: string, base: nat)
    requires base >= 2 && AllDigits(ds, base)
    ensures AllDigits(Pad('0', z) + ds, base)
    ensures z > 0 ==> (Pad('0', z) + ds)[0] == '0'
  {
    assert DigitIn('0', base);
    hide DigitIn;
  }

  /** The prefix a conversion prints is one strntoumax understands, in its own base or when asked to guess. */
  predicate Readable(fl: Flags, base: nat, asked: int) {
    asked == base || (asked == 0 && fl.hash && (base == 8 || base == 16))
  }

  lemma PrefixAnnounces(val: nat, fl: Flags, base: nat, prec: int, asked: int, z: int, ds: string, rest: string)
    requires val < U64 && 2 <= base <= 16 && Readable(fl, base, asked)
    requires ds != "" && Body(val, fl, base, prec) == ds + rest
    ensures Announces(asked, base, Prefix(fl, base), Pad('0', z) + ds)
  {
    hide Body;
    if asked == 0 && base == 8 {
      OctalPrefix(val, fl, prec);
      assert ds[0] == (ds + rest)[0];
    }
  }

  /** format_int's text, cut where reading stops. */
  lemma ReadIntText(val: nat, fl: Flags, base: nat, width: int, prec: int, asked: int) returns (e: nat)
    requires val < U64 && 2 <= base <= 16 && Readable(fl, base, asked)
    ensures ReadsAs(IntText(val, fl, base, width, prec), asked, Signed(IsNegative(val, fl), Shown(val, fl, base, prec)), e)
  {
    hide Body, Shown, Numeral, AllDigits, ReadsAs, Signed, IntText, Announces, Readable, Pad, DigitVal, Stops;
    var ds, rest := BodyParts(val, fl, base, prec);
    var sign, prefix := Sign(val, fl), Prefix(fl, base);
    var gap := width - |sign| - |prefix| - |ds + rest|;
    var k := if !fl.minus && !fl.zero then gap else 0;
    var z := if !fl.minus && fl.zero then gap else 0;
    var t := if fl.minus then gap else 0;
    IntTextParts(val, fl, base, width, prec, ds + rest, gap);
    ZerosAreDigits(z, ds, base);
    PrefixAnnounces(val, fl, base, prec, asked, z, ds, rest);
    RestStops(rest, t, base);
    ReadParts(k, sign, prefix, Pad('0', z) + ds, rest + Pad(' ', t), asked, base);
    LeadingZeros(z, ds, base);
    Regroup(Pad(' ', k) + sign + prefix, Pad('0', z), ds, rest, Pad(' ', t));
    e := |Pad(' ', k) + sign + prefix| + |Pad('0', z) + ds|;
  }

  lemma RestStops(rest: string, t: int, base: nat)
    requires rest != "" ==> rest[0] == '_'
    ensures Stops(rest + Pad(' ', t), base)
  {
  }

  lemma Regroup(a: string, z: string, ds: string, rest: string, t: string)
    ensures a + z + (ds + rest) + t == a + (z + ds) + (rest + t)
  {
  }

  /** Tick marks are printed. */
  predicate Ticked(val: nat, fl: Flags, base: nat, prec: int)
    requires val < U64 && 2 <= base <= 16
  {
    var n := PrintedDigits(Magnitude(val, fl), fl, base, prec);
    n > TickSkip(fl, base, n)
  }

  lemma ShownIsAll(val: nat, fl: Flags, base: nat, prec: int)
    requires val < U64 && 2 <= base <= 16
    ensures Shown(val, fl, base, prec) == Magnitude(val, fl) <==> !Ticked(val, fl, base, prec) || val == 0
    ensures Shown(val, fl, base, prec) <= Magnitude(val, fl)
  {
    hide DigitCount;
  }

  /** The round trip: reading back what was printed gives the value, modulo 2^64, for all values, flags, widths
      and precisions, if and only if no tick mark was printed or the value is zero. */
  lemma PrintedReadsBack(val: nat, fl: Flags, base: nat, width: int, prec: int, asked: int, v: int, e: nat)
    requires val < U64 && 2 <= base <= 16 && Readable(fl, base, asked)
    requires ReadsAs(IntText(val, fl, base, width, prec), asked, v, e)
    ensures v == val <==> !Ticked(val, fl, base, prec) || val == 0
  {
    hide IntText, Shown, ReadsAs, Ticked;
    var e' := ReadIntText(val, fl, base, width, prec, asked);
    ReadingUnique(IntText(val, fl, base, width, prec), asked, v, e, Signed(IsNegative(val, fl), Shown(val, fl, base, prec)), e');
    ShownIsAll(val, fl, base, prec);
  }

  /** The smallest failing case: 1_000 is read as 1. */
  lemma TickedExample()
    ensures Ticked(1000, NO_FLAGS.(tick := true), 10, -1)
  {
    assert Front(1000, 10) == 100 && Front(100, 10) == 10 && Front(10, 10) == 1;
    assert DigitCount(1000, 10) == 1 + DigitCount(100, 10);
    assert DigitCount(100, 10) == 1 + DigitCount(10, 10);
  }

  // ---- decimal output read without naming the base

  /** A zero comes first among the digits, through padding or precision or because the value is zero. */
  predicate ZeroLeads(val: nat, fl: Flags, width: int, prec: int)
    requires val < U64
  {
    || (!fl.minus && fl.zero && width > |Sign(val, fl)| + |Body(val, fl, 10, prec)|)
    || PrintedDigits(Magnitude(val, fl), fl, 10, prec) > DigitCount(Magnitude(val, fl), 10)
  }

  /** The digits of s, from the left, that are octal. */
  function OctalRun(s: string): (m: nat)
    ensures m <= |s| && AllOctal(s[..m]) && (m < |s| ==> DigitVal(s[m]) >= 8 || DigitVal(s[m]) < 0)
  {
    if s == "" || !DigitIn(s[0], 8) then 0
    else
      var m := 1 + OctalRun(s[1..]);
      assert s[..m] == [s[0]] + s[1..][..m - 1];
      m
  }

  predicate AllOctal(s: string) { forall i :: 0 <= i < |s| ==> DigitIn(s[i], 8) }

  /** Decimal digits read in base 8 give no more than in base 10, and the same only for a single digit's worth. */
  lemma {:induction false} OctalIsLess(s: string)
    requires AllOctal(s)
    ensures 0 <= Numeral(s, 8) <= Numeral(s, 10) && (Numeral(s, 8) == Numeral(s, 10) <==> Numeral(s, 10) < 8)
    decreases |s|
  {
    if s != "" {
      OctalIsLess(s[..|s| - 1]);
      assert DigitIn(s[|s| - 1], 8);
    }
  }

  lemma {:induction false} NumeralGrows(s: string, m: nat)
    requires AllDigits(s, 10) && m <= |s|
    ensures 0 <= Numeral(s[..m], 10) <= Numeral(s, 10)
    ensures m < |s| ==> Numeral(s, 10) >= 10 * Numeral(s[..m], 10) + DigitVal(s[m])
    decreases |s|
  {
    if m == |s| {
      assert s[..m] == s;
      if s != "" {
        NumeralGrows(s[..|s| - 1], |s| - 1);
        LastIsDigit(s);
      }
    } else {
      var t := s[..|s| - 1];
      assert t[..m] == s[..m];
      NumeralGrows(t, m);
      LastIsDigit(s);
    }
  }

  lemma LastIsDigit(s: string)
    requires s != "" && AllDigits(s, 10)
    ensures 0 <= DigitVal(s[|s| - 1]) < 10 && AllDigits(s[..|s| - 1], 10)
    ensures Numeral(s, 10) == Numeral(s[..|s| - 1], 10) * 10 + DigitVal(s[|s| - 1])
  {
    assert s[|s| - 1] in s && DigitIn(s[|s| - 1], 10);
    assert forall c | c in s[..|s| - 1] :: c in s;
  }

  lemma OctalReading(s: string)
    requires AllDigits(s, 10)
    ensures var (r, n) := (Numeral(s[..OctalRun(s)], 8), Numeral(s, 10));
      0 <= r <= n && (r == n <==> n < 8)
  {
    var m := OctalRun(s);
    hide OctalRun, Numeral;
    OctalIsLess(s[..m]);
    NumeralGrows(s, m);
    if m < |s| {
      assert s[m] in s && DigitIn(s[m], 10);
    } else {
      assert s[..m] == s;
    }
  }

  /** The first digit printed, padding aside. */
  lemma FirstOfBody(val: nat, fl: Flags, prec: int)
    requires val < U64
    ensures var mag := Magnitude(val, fl);
      && |Body(val, fl, 10, prec)| > 0
      && (Body(val, fl, 10, prec)[0] == '0' <==> PrintedDigits(mag, fl, 10, prec) > DigitCount(mag, 10))
  {
    hide Body, Shown, Digits, Grouped, Fronts, FirstGroup, Magnitude, DigitCount, PrintedDigits, TickSkip;
    var mag := Magnitude(val, fl);
    var n := PrintedDigits(mag, fl, 10, prec);
    var skip := TickSkip(fl, 10, n);
    var d := Digits(mag, 10, n, fl.upper);
    BodyIsGrouped(val, fl, 10, prec);
    GroupedHead(d, skip);
    assert Grouped(d, skip)[..FirstGroup(n, skip)][0] == d[..FirstGroup(n, skip)][0];
    LeadingDigit(mag, 10, n, fl.upper);
  }

  lemma OctalParts(ds: string, rest: string)
    requires AllDigits(ds, 10) && ds != "" && ds[0] == '0' && Stops(rest, 8)
    ensures var m := OctalRun(ds);
      0 < m <= |ds| && ds[0] == ds[..m][0] && AllDigits(ds[..m], 8) && Stops(ds[m..] + rest, 8)
  {
    var m := OctalRun(ds);
    assert DigitIn(ds[0], 8);
    if m < |ds| {
      assert ds[m] in ds && DigitIn(ds[m], 10);
    }
  }

  /** Sign and decimal digits, read in a base to be guessed. */
  lemma ReadGuessed(k: int, sign: string, ds: string, rest: string) returns (r: int, e: nat)
    requires SignText(sign) && ds != "" && AllDigits(ds, 10) && Stops(rest, 8) && Stops(rest, 10)
    ensures ReadsAs(Pad(' ', k) + sign + "" + ds + rest, 0, Signed(sign == "-", r), e)
    ensures var n := Numeral(ds, 10);
      if ds[0] == '0' then 0 <= r <= n && (r == n <==> n < 8) else r == n
  {
    hide Pad, Numeral, AllDigits, ReadsAs, Signed, SignText, Stops, OctalRun;
    var before := Pad(' ', k) + sign + "";
    if ds[0] != '0' {
      ReadParts(k, sign, "", ds, rest, 0, 10);
      r, e := Numeral(ds, 10), |before| + |ds|;
    } else {
      var m := OctalRun(ds);
      OctalParts(ds, rest);
      OctalReading(ds);
      ReadParts(k, sign, "", ds[..m], ds[m..] + rest, 0, 8);
      Rejoin(before, ds, m, rest);
      r, e := Numeral(ds[..m], 8), |before| + m;
    }
  }

  lemma Rejoin(before: string, ds: string, m: nat, rest: string)
    requires m <= |ds|
    ensures before + ds[..m] + (ds[m..] + rest) == before + ds + rest
  {
  }

  lemma FirstOfPadded(z: int, ds: string)
    requires ds != ""
    ensures (Pad('0', z) + ds)[0] == '0' <==> z > 0 || ds[0] == '0'
  {
  }

  /** What strntoumax, asked to guess the base, reads from decimal output. */
  lemma ReadDecimal(val: nat, fl: Flags, width: int, prec: int) returns (r: int, e: nat)
    requires val < U64
    ensures ReadsAs(IntText(val, fl, 10, width, prec), 0, Signed(IsNegative(val, fl), r), e)
    ensures var n := Shown(val, fl, 10, prec);
      if ZeroLeads(val, fl, width, prec) then 0 <= r <= n && (r == n <==> n < 8) else r == n
  {
    hide Body, Shown, Numeral, AllDigits, ReadsAs, Signed, IntText, Pad, Stops, PrintedDigits, DigitCount;
    var ds, rest := BodyParts(val, fl, 10, prec);
    var sign := Sign(val, fl);
    var gap := width - |sign| - |ds + rest|;
    var k := if !fl.minus && !fl.zero then gap else 0;
    var z := if !fl.minus && fl.zero then gap else 0;
    var t := if fl.minus then gap else 0;
    IntTextParts(val, fl, 10, width, prec, ds + rest, gap);
    ZerosAreDigits(z, ds, 10);
    LeadingZeros(z, ds, 10);
    Regroup(Pad(' ', k) + sign + "", Pad('0', z), ds, rest, Pad(' ', t));
    RestStops(rest, t, 8);
    RestStops(rest, t, 10);
    r, e := ReadGuessed(k, sign, Pad('0', z) + ds, rest + Pad(' ', t));
    FirstOfPadded(z, ds);
    FirstOfBody(val, fl, prec);
    assert ds[0] == (ds + rest)[0];
  }

  /** Decimal output read in a base to be guessed gives the value back if and only if it is zero, or no tick mark
      was printed and either no zero leads or the magnitude is a single octal digit. */
  lemma DecimalReadsBack(val: nat, fl: Flags, width: int, prec: int, v: int, e: nat)
    requires val < U64 && ReadsAs(IntText(val, fl, 10, width, prec), 0, v, e)
    ensures v == val <==>
      val == 0 || (!Ticked(val, fl, 10, prec) && (!ZeroLeads(val, fl, width, prec) || Magnitude(val, fl) < 8))
  {
    hide IntText, Shown, ReadsAs, Ticked, ZeroLeads;
    var r, e' := ReadDecimal(val, fl, width, prec);
    ReadingUnique(IntText(val, fl, 10, width, prec), 0, v, e, Signed(IsNegative(val, fl), r), e');
    ShownIsAll(val, fl, 10, prec);
    SignedInverts(val, fl, r);
  }

  lemma SignedInverts(val: nat, fl: Flags, r: int)
    requires val < U64 && 0 <= r <= Magnitude(val, fl)
    ensures Signed(IsNegative(val, fl), r) == val <==> r == Magnitude(val, fl)
  {
  }
}
