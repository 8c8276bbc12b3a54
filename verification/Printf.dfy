/** vsnprintf and format_int of usr/klibc/vsnprintf.c: printing into a bounded buffer.

    The theorem of this module is that bounded printing is unbounded printing seen through a window:
    whatever the format, the arguments and the size n, the buffer receives the first n - 1 characters of
    the text that module Format defines, and the length reported does not depend on n. */
module Printf {
  import opened Format
  import opened Powers

  /** The buffer contents `s` after text t has been printed at position pos of the n characters that
      start at `base`: what falls outside those n characters is dropped. */
  function Window(s: string, base: int, n: nat, pos: nat, t: string): (r: string)
    ensures |r| == |s|
  {
    seq(|s|, i requires 0 <= i < |s| =>
      if pos <= i - base < n && i - base < pos + |t| then t[i - base - pos] else s[i])
  }

  lemma WindowEmpty(s: string, base: int, n: nat, pos: nat)
    ensures Window(s, base, n, pos, "") == s
  {
  }

  lemma WindowConcat(s: string, base: int, n: nat, pos: nat, t: string, u: string)
    ensures Window(Window(s, base, n, pos, t), base, n, pos + |t|, u) == Window(s, base, n, pos, t + u)
  {
  }

  /** Writing one more character in front. */
  lemma WindowFront(s: string, base: int, n: nat, pos: nat, x: char, t: string)
    requires 0 < pos && (pos <= n ==> 0 <= base + pos - 1 < |s|)
    ensures Window(s, base, n, pos - 1, [x] + t) ==
      if pos - 1 < n then Window(s, base, n, pos, t)[base + pos - 1 := x] else Window(s, base, n, pos, t)
  {
  }

  // ---- generating digits from right to left

  /** What the digit loop produces from n digits of val, with b4 digits to go before the next tick mark. */
  function NumText(val: nat, base: nat, n: nat, b4: nat, skip: nat, upper: bool): string
    requires 2 <= base <= 16 && skip > 0
    decreases n
  {
    if n == 0 then ""
    else if b4 == 0 then NumText(Front(val, base), base, n - 1, skip - 1, skip, upper) + [DigitChar(Last(val, base), upper)] + "_"
    else NumText(Front(val, base), base, n - 1, b4 - 1, skip, upper) + [DigitChar(Last(val, base), upper)]
  }

  lemma NumTextUnfold(val: nat, base: nat, n: nat, b4: nat, skip: nat, upper: bool)
    requires 2 <= base <= 16 && skip > 0 && n > 0
    ensures var (c, f) := (DigitChar(Last(val, base), upper), Front(val, base));
      && NumText(val, base, n, b4, skip, upper) ==
        (if b4 == 0 then NumText(f, base, n - 1, skip - 1, skip, upper) + [c] + "_"
         else NumText(f, base, n - 1, b4 - 1, skip, upper) + [c])
      && Digits(val, base, n, upper) == Digits(f, base, n - 1, upper) + [c]
  {
    hide Front, Last, DigitChar;
  }

  lemma NoDigits(val: nat, base: nat, b4: nat, skip: nat, upper: bool)
    requires 2 <= base <= 16 && skip > 0
    ensures NumText(val, base, 0, b4, skip, upper) == GroupedWith(Digits(val, base, 0, upper), skip, b4)
  {
  }

  lemma {:induction false} NumTextIsGrouped(val: nat, base: nat, n: nat, b4: nat, skip: nat, upper: bool)
    requires 2 <= base <= 16 && skip > 0 && b4 <= skip
    ensures NumText(val, base, n, b4, skip, upper) == GroupedWith(Digits(val, base, n, upper), skip, b4)
    decreases n
  {
    hide NumText, Digits, GroupedWith, Grouped, Front, Last, DigitChar;
    if n == 0 {
      NoDigits(val, base, b4, skip, upper);
    } else {
      var f, c := Front(val, base), DigitChar(Last(val, base), upper);
      var d, b := Digits(f, base, n - 1, upper), if b4 == 0 then skip - 1 else b4 - 1;
      NumTextUnfold(val, base, n, b4, skip, upper);
      NumTextIsGrouped(f, base, n - 1, b, skip, upper);
      GroupedBy(d, c, skip, b);
      GroupedWhole(d + [c], skip);
    }
  }

  /** The digits d with a tick mark before the last b, if there are more than b. */
  function GroupedWith(d: string, skip: nat, b: nat): string
    requires skip > 0
  {
    if |d| <= b then d else Grouped(d[..|d| - b], skip) + "_" + d[|d| - b..]
  }

  lemma Concat3(a: string, b: string, c: string)
    ensures (a + b) + c == a + (b + c)
  {
  }

  lemma GroupedBy(d: string, c: char, skip: nat, b: nat)
    requires skip > 0
    ensures GroupedWith(d, skip, b) + [c] == GroupedWith(d + [c], skip, b + 1)
  {
    hide Grouped;
    var e := d + [c];
    if |d| > b {
      assert e[..|e| - (b + 1)] == d[..|d| - b];
      assert e[|e| - (b + 1)..] == d[|d| - b..] + [c];
      Concat3(Grouped(d[..|d| - b], skip) + "_", d[|d| - b..], [c]);
    }
  }

  lemma GroupedWhole(d: string, skip: nat)
    requires skip > 0
    ensures GroupedWith(d, skip, skip) == Grouped(d, skip)
    ensures |d| > 0 ==> GroupedWith(d, skip, 0) == Grouped(d, skip) + "_"
  {
    assert d[..|d|] == d;
  }

  /** Starting a fresh group, the loop produces the grouped digits. */
  lemma NumTextFromStart(val: nat, base: nat, n: nat, skip: nat, upper: bool)
    requires 2 <= base <= 16 && skip > 0
    ensures NumText(val, base, n, skip, skip, upper) == Grouped(Digits(val, base, n, upper), skip)
  {
    NumTextIsGrouped(val, base, n, skip, skip, upper);
    GroupedWhole(Digits(val, base, n, upper), skip);
  }

  function Ticks(digits: nat, skip: nat): nat
    requires digits >= 1 && skip > 0
  {
    (digits - 1) / skip
  }

  lemma TicksStep(n: nat, skip: nat)
    requires n >= 1 && skip > 0
    ensures Ticks(n, skip) == if n <= skip then 0 else Ticks(n - skip, skip) + 1
  {
    if n <= skip {
      DivModUnique(n - 1, skip, 0, n - 1);
    } else {
      var m := n - 1 - skip;
      assert m == m / skip * skip + m % skip;
      assert (m / skip + 1) * skip == m / skip * skip + skip;
      DivModUnique(n - 1, skip, m / skip + 1, m % skip);
    }
  }

  lemma GroupedStep(d: string, skip: nat)
    requires skip > 0
    ensures |d| <= skip ==> Grouped(d, skip) == d
    ensures |d| > skip ==> |Grouped(d, skip)| == |Grouped(d[..|d| - skip], skip)| + 1 + skip
  {
  }

  lemma {:induction false} GroupedLength(d: string, skip: nat)
    requires skip > 0 && |d| >= 1
    ensures |Grouped(d, skip)| == |d| + Ticks(|d|, skip)
    decreases |d|
  {
    hide Grouped, Ticks;
    GroupedStep(d, skip);
    TicksStep(|d|, skip);
    if |d| > skip {
      GroupedLength(d[..|d| - skip], skip);
    }
  }

  lemma NumTextStep(val: nat, base: nat, n: nat, b4: nat, skip: nat, upper: bool, done: string)
    requires 2 <= base <= 16 && skip > 0 && |NumText(val, base, n, b4, skip, upper)| > 0
    ensures n > 0
    ensures var c := DigitChar(Last(val, base), upper);
      && |NumText(val, base, n, b4, skip, upper)| >= (if b4 == 0 then 2 else 1)
      && NumText(val, base, n, b4, skip, upper) + done ==
        NumText(Front(val, base), base, n - 1, (if b4 == 0 then skip else b4) - 1, skip, upper)
          + ([c] + (if b4 == 0 then "_" + done else done))
  {
    var c := DigitChar(Last(val, base), upper);
    var rest := NumText(Front(val, base), base, n - 1, (if b4 == 0 then skip else b4) - 1, skip, upper);
    Concat3(rest, [c], done);
    Concat3(rest + [c], "_", done);
    Concat3(rest, [c], "_" + done);
  }

  /** The output pointer and counter of the source, with the text they stand for. */
  class Sink {
    const buf: array<char>
    const base: int
    const n: nat
    var q: int
    var o: nat
    ghost var text: string
    ghost const before: string

    ghost predicate Valid()
      reads this, buf
    {
      && (n > 0 ==> 0 <= base && base + n <= buf.Length)
      && o == |text| && (o <= n ==> q == base + o)
      && |before| == buf.Length && buf[..] == Window(before, base, n, 0, text)
    }

    constructor (buf: array<char>, base: int, n: nat)
      requires n > 0 ==> 0 <= base && base + n <= buf.Length
      ensures Valid() && text == "" && this.buf == buf && this.base == base && this.n == n && before == buf[..]
    {
      this.buf, this.base, this.n := buf, base, n;
      q, o, text, before := base, 0, "", buf[..];
      new;
      WindowEmpty(before, base, n, 0);
    }

    /** The EMIT macro. */
    method Emit(x: char)
      requires Valid()
      modifies this, buf
      ensures Valid() && text == old(text) + [x]
    {
      WindowConcat(before, base, n, 0, text, [x]);
      ghost var s := buf[..];
      if o < n {
        buf[q] := x;
        q := q + 1;
      }
      o := o + 1;
      assert buf[..] == Window(s, base, n, |text|, [x]);
      text := text + [x];
    }

    /** The padding loops. */
    method EmitPad(c: char, gap: int)
      requires Valid()
      modifies this, buf
      ensures Valid() && text == old(text) + Pad(c, gap)
    {
      var left := gap;
      assert old(text) + Pad(c, 0) == old(text);
      while left > 0
        invariant Valid() && left <= Max(0, gap) && (gap >= 0 ==> left >= 0) && (gap < 0 ==> left == gap)
        invariant text == old(text) + Pad(c, Max(0, gap) - Max(0, left))
      {
        ghost var done := Max(0, gap) - left;
        Emit(c);
        left := left - 1;
        assert Pad(c, done) + [c] == Pad(c, done + 1);
      }
    }

    method EmitString(s: string)
      requires Valid()
      modifies this, buf
      ensures Valid() && text == old(text) + s
    {
      for i := 0 to |s|
        invariant Valid() && text == old(text) + s[..i]
      {
        Emit(s[i]);
        assert s[..i] + [s[i]] == s[..i + 1];
      }
      assert s[..|s|] == s;
    }

    /** Sign and 0x prefix. */
    method EmitNondigits(minus: bool, val: nat, fl: Flags, radix: nat)
      requires Valid() && minus == IsNegative(val, fl)
      modifies this, buf
      ensures Valid() && text == old(text) + Sign(val, fl) + Prefix(fl, radix)
    {
      if minus {
        Emit('-');
      } else if fl.plus {
        Emit('+');
      } else if fl.space {
        Emit(' ');
      }
      assert text == old(text) + Sign(val, fl);
      if fl.hash && radix == 16 {
        Emit('0');
        Emit(if fl.upper then 'X' else 'x');
      }
    }

    /** One backward step of the digit loop: put x at position oo - 1, if there is room. */
    method PutBack(qq: int, oo: nat, x: char, ghost s: string, ghost done: string)
      requires n > 0 ==> 0 <= base && base + n <= buf.Length
      requires 0 < oo && (oo <= n ==> qq == base + oo) && |s| == buf.Length
      requires buf[..] == Window(s, base, n, oo, done)
      modifies buf
      ensures buf[..] == Window(s, base, n, oo - 1, [x] + done)
    {
      WindowFront(s, base, n, oo, x, done);
      if oo - 1 < n {
        buf[qq - 1] := x;
      }
    }

    /** The number, from right to left: `chars` characters are reserved first, then filled in backwards. */
    method EmitNumber(val: nat, radix: nat, digits: nat, chars: nat, skip: nat, upper: bool)
      requires Valid() && 2 <= radix <= 16 && skip > 0
      requires chars == |NumText(val, radix, digits, skip, skip, upper)|
      modifies this, buf
      ensures Valid() && text == old(text) + NumText(val, radix, digits, skip, skip, upper)
    {
      hide Window, NumText, DigitChar, Front, Last;
      ghost var s, all := buf[..], NumText(val, radix, digits, skip, skip, upper);
      WindowEmpty(s, base, n, o + chars);
      WindowConcat(before, base, n, 0, text, all);
      q := q + chars;
      o := o + chars;
      var qq, oo: nat, left: nat, v: nat, b4: nat := q, o, chars, val, skip;
      ghost var d: nat, done := digits, "";
      while left > 0
        invariant oo == |text| + left && left + |done| == chars && (|text| <= n ==> qq == base + oo)
        invariant all == NumText(v, radix, d, b4, skip, upper) + done && b4 <= skip
        invariant buf[..] == Window(s, base, n, oo, done)
        modifies buf
      {
        ghost var c := DigitChar(Last(v, radix), upper);
        NumTextStep(v, radix, d, b4, skip, upper, done);
        if b4 == 0 {
          PutBack(qq, oo, '_', s, done);
          qq, oo, left := qq - 1, oo - 1, left - 1;
          done := "_" + done;
          b4 := skip;
        }
        PutBack(qq, oo, DigitChar(Last(v, radix), upper), s, done);
        qq, oo, left := qq - 1, oo - 1, left - 1;
        done := [c] + done;
        v, b4, d := Front(v, radix), b4 - 1, d - 1;
      }
      assert done == all;
      text := text + all;
    }
  }

  // ---- format_int

  method CountDigits(val: nat, base: nat) returns (n: nat)
    requires base >= 2
    ensures n == DigitCount(val, base)
  {
    hide Front;
    n := 0;
    var tmp: nat := val;
    while tmp != 0
      invariant n + DigitCount(tmp, base) == DigitCount(val, base)
    {
      tmp := Front(tmp, base);
      n := n + 1;
    }
  }

  lemma CountPositive(val: nat, base: nat)
    requires base >= 2
    ensures DigitCount(val, base) > 0 <==> val > 0
  {
  }

  /** Digits to print and their tick distance, as format_int works them out. */
  method Layout(mag: nat, fl: Flags, base: nat, prec: int) returns (digits: nat, skip: nat, chars: nat)
    requires 2 <= base <= 16
    ensures digits == PrintedDigits(mag, fl, base, prec) && skip == TickSkip(fl, base, digits) && skip > 0
    ensures chars == |NumText(mag, base, digits, skip, skip, fl.upper)|
    ensures NumText(mag, base, digits, skip, skip, fl.upper) == Grouped(Digits(mag, base, digits, fl.upper), skip)
  {
    hide DigitCount, Digits, NumText, Grouped, Ticks;
    CountPositive(mag, base);
    digits := CountDigits(mag, base);
    var p := prec;
    if fl.hash && base == 8 {
      if p < digits + 1 {
        p := digits + 1;
      }
    }
    if digits < p {
      digits := p;
    } else if mag == 0 {
      digits := 1;
    }
    skip := if fl.tick then (if base == 16 then 4 else 3) else digits;
    chars := digits + Ticks(digits, skip);
    NumTextFromStart(mag, base, digits, skip, fl.upper);
    GroupedLength(Digits(mag, base, digits, fl.upper), skip);
  }

  lemma NoPad(c: char, gap: int)
    ensures gap <= 0 ==> Pad(c, gap) == ""
  {
  }

  lemma IntTextParts(val: nat, fl: Flags, base: nat, width: int, prec: int, body: string, gap: int)
    requires val < U64 && 2 <= base <= 16 && body == Body(val, fl, base, prec)
    requires gap == width - |Sign(val, fl)| - |Prefix(fl, base)| - |body|
    ensures IntText(val, fl, base, width, prec) ==
      Pad(' ', if !fl.minus && !fl.zero then gap else 0) + Sign(val, fl) + Prefix(fl, base)
        + Pad('0', if !fl.minus && fl.zero then gap else 0) + body + Pad(' ', if fl.minus then gap else 0)
  {
    hide Body;
    NoPad(' ', 0);
    NoPad('0', 0);
    var sign, prefix := Sign(val, fl), Prefix(fl, base);
    assert "" + sign == sign;
    assert sign + prefix + "" == sign + prefix;
  }

  /** First half of format_int: separate the sign and measure the parts. */
  method Measure(val: nat, fl: Flags, base: nat, prec: int)
    returns (minus: bool, v: nat, digits: nat, skip: nat, chars: nat, nchars: nat)
    requires val < U64 && 2 <= base <= 16
    ensures minus == IsNegative(val, fl) && skip > 0
    ensures var body := NumText(v, base, digits, skip, skip, fl.upper);
      body == Body(val, fl, base, prec) && chars == |body| && nchars == |Sign(val, fl)| + |Prefix(fl, base)| + |body|
  {
    minus, v := false, val;
    if fl.signed && v >= U64 / 2 {
      minus := true;
      v := (U64 - v) % U64;
    }
    hide NumText, Grouped, Digits, PrintedDigits, TickSkip;
    digits, skip, chars := Layout(v, fl, base, prec);
    nchars := chars;
    if minus || fl.plus || fl.space {
      nchars := nchars + 1;
    }
    if fl.hash && base == 16 {
      nchars := nchars + 2;
    }
  }

  /** format_int: the text of a number, printed into the n characters at q. */
  method FormatInt(buf: array<char>, q: int, n: nat, val: nat, fl: Flags, base: nat, width: int, prec: int)
    returns (o: nat)
    requires n > 0 ==> 0 <= q && q + n <= buf.Length
    requires val < U64 && 2 <= base <= 16
    modifies buf
    ensures o == |IntText(val, fl, base, width, prec)|
    ensures buf[..] == Window(old(buf[..]), q, n, 0, IntText(val, fl, base, width, prec))
  {
    hide Window, NumText, IntText, Pad, Sign, Prefix, Body, IsNegative;
    var minus, v, digits, skip, chars, nchars := Measure(val, fl, base, prec);
    var w := width;
    var sink := new Sink(buf, q, n);
    ghost var gap, body := width - nchars, NumText(v, base, digits, skip, skip, fl.upper);
    if !fl.minus && !fl.zero && w > nchars {
      sink.EmitPad(' ', w - nchars);
      w := nchars;
    } else {
      NoPad(' ', if !fl.minus && !fl.zero then gap else 0);
    }
    assert sink.text == Pad(' ', if !fl.minus && !fl.zero then gap else 0);
    sink.EmitNondigits(minus, val, fl, base);
    if !fl.minus && fl.zero && w > chars {
      sink.EmitPad('0', w - nchars);
      w := if w > nchars then nchars else w;
    } else {
      NoPad('0', if !fl.minus && fl.zero then gap else 0);
    }
    sink.EmitNumber(v, base, digits, chars, skip, fl.upper);
    if fl.minus {
      sink.EmitPad(' ', w - nchars);
    } else {
      NoPad(' ', 0);
    }
    IntTextParts(val, fl, base, width, prec, body, gap);
    assert sink.text == IntText(val, fl, base, width, prec);
    assert sink.before == old(buf[..]);
    o := sink.o;
  }
}
