/** What usr/klibc/vsnprintf.c prints, written down as text: the output of a format and its arguments
    into a buffer without bounds. */
module Format {
  import opened Wrappers
  import opened Powers

  const U64: int := 0x1_0000_0000_0000_0000

  datatype Flags = Flags(zero: bool, minus: bool, plus: bool, tick: bool, space: bool, hash: bool, signed: bool, upper: bool)

  const NO_FLAGS := Flags(false, false, false, false, false, false, false, false)

  function Max(a: int, b: int): int { if a > b then a else b }

  function Pad(c: char, n: int): (r: string)
    ensures |r| == Max(0, n)
  {
    seq(Max(0, n), _ => c)
  }

  // ---- numbers

  function DigitChar(d: nat, upper: bool): char
    requires d < 16
  {
    (if upper then "0123456789ABCDEF" else "0123456789abcdef")[d]
  }

  /** All digits but the last, and the last. */
  function Front(val: nat, base: nat): (r: nat)
    requires base >= 2
    ensures val > 0 ==> r < val
  {
    DivShrinks(val, base);
    val / base
  }

  function Last(val: nat, base: nat): (r: nat)
    requires base >= 2
    ensures r < base
  {
    val % base
  }

  lemma DivShrinks(val: nat, base: nat)
    requires base >= 2
    ensures val > 0 ==> 0 <= val / base < val
  {
    var q := val / base;
    assert val == q * base + val % base;
    if q > 0 {
      MulPos(base - 2, q);
      assert q * base == q * 2 + (base - 2) * q;
    }
  }

  /** The last n digits of val in the given base, most significant first. */
  function Digits(val: nat, base: nat, n: nat, upper: bool): (r: string)
    requires 2 <= base <= 16
    ensures |r| == n
    decreases n
  {
    if n == 0 then "" else Digits(Front(val, base), base, n - 1, upper) + [DigitChar(Last(val, base), upper)]
  }

  /** The number of digits val needs; none for zero. */
  function DigitCount(val: nat, base: nat): nat
    requires base >= 2
    decreases val
  {
    if val == 0 then 0 else 1 + DigitCount(Front(val, base), base)
  }

  /** Groups of `skip` digits counted from the right, with tick marks in between. */
  function Grouped(d: string, skip: nat): string
    requires skip > 0
  {
    if |d| <= skip then d else Grouped(d[..|d| - skip], skip) + "_" + d[|d| - skip..]
  }

  predicate IsNegative(val: nat, fl: Flags) { fl.signed && val >= U64 / 2 }

  function Magnitude(val: nat, fl: Flags): nat
    requires val < U64
  {
    if IsNegative(val, fl) then U64 - val else val
  }

  /** How many digits are printed: at least the precision, at least one, and a leading zero for %#o. */
  function PrintedDigits(mag: nat, fl: Flags, base: nat, prec: int): nat
    requires base >= 2
  {
    var n := DigitCount(mag, base);
    var p := if fl.hash && base == 8 then Max(prec, n + 1) else prec;
    Max(Max(n, p), 1)
  }

  function TickSkip(fl: Flags, base: nat, n: nat): nat { if fl.tick then (if base == 16 then 4 else 3) else n }

  function Body(val: nat, fl: Flags, base: nat, prec: int): string
    requires val < U64 && 2 <= base <= 16
  {
    var mag := Magnitude(val, fl);
    var n := PrintedDigits(mag, fl, base, prec);
    Grouped(Digits(mag, base, n, fl.upper), TickSkip(fl, base, n))
  }

  function Sign(val: nat, fl: Flags): string {
    if IsNegative(val, fl) then "-" else if fl.plus then "+" else if fl.space then " " else ""
  }

  function Prefix(fl: Flags, base: nat): string {
    if fl.hash && base == 16 then (if fl.upper then "0X" else "0x") else ""
  }

  /** The output of format_int. */
  function IntText(val: nat, fl: Flags, base: nat, width: int, prec: int): string
    requires val < U64 && 2 <= base <= 16
  {
    var sign, prefix, body := Sign(val, fl), Prefix(fl, base), Body(val, fl, base, prec);
    var gap := width - |sign| - |prefix| - |body|;
    if fl.minus then sign + prefix + body + Pad(' ', gap)
    else if fl.zero then sign + prefix + Pad('0', gap) + body
    else Pad(' ', gap) + sign + prefix + body
  }

  // ---- strings

  function StringText(s: string, fl: Flags, width: int, prec: int): string
    requires prec >= -1
  {
    var t := if prec != -1 && |s| > prec then s[..prec] else s;
    var gap := width - |t|;
    if fl.minus then t + Pad(' ', gap) else Pad(if fl.zero then '0' else ' ', gap) + t
  }

  // ---- formats

  /** One variadic argument, as whatever type it is taken. */
  datatype Arg = Arg(bits: int, text: Option<string>)

  type Args = nat -> Arg

  predicate IsDigit(c: char) { '0' <= c <= '9' }

  function DigitValue(c: char): int
    requires IsDigit(c)
  {
    c as int - '0' as int
  }

  function AddFlag(c: char, fl: Flags): Option<Flags> {
    if c == '-' then Some(fl.(minus := true))
    else if c == '+' then Some(fl.(plus := true))
    else if c == '\'' then Some(fl.(tick := true))
    else if c == ' ' then Some(fl.(space := true))
    else if c == '#' then Some(fl.(hash := true))
    else if c == '0' then Some(fl.(zero := true))
    else None
  }

  function ScanFlags(f: string, p: nat, fl: Flags): (r: (Flags, nat))
    requires p <= |f|
    ensures p <= r.1 <= |f|
    decreases |f| - p
  {
    if p < |f| && AddFlag(f[p], fl).Some? then ScanFlags(f, p + 1, AddFlag(f[p], fl).value) else (fl, p)
  }

  /** Field width: decimal digits, or `*` for an argument, which may ask for left justification. */
  function ScanWidth(f: string, p: nat, fl: Flags, width: int, args: Args, ap: nat): (r: (Flags, int, nat, nat))
    requires p <= |f|
    ensures p <= r.2 <= |f|
    decreases |f| - p
  {
    if p < |f| && IsDigit(f[p]) then ScanWidth(f, p + 1, fl, width * 10 + DigitValue(f[p]), args, ap)
    else if p < |f| && f[p] == '*' then
      var w := args(ap).bits;
      ScanWidth(f, p + 1, if w < 0 then fl.(minus := true) else fl, if w < 0 then -w else w, args, ap + 1)
    else (fl, width, p, ap)
  }

  function ScanPrec(f: string, p: nat, prec: int, args: Args, ap: nat): (r: (int, nat, nat))
    requires p <= |f|
    ensures p <= r.1 <= |f|
    decreases |f| - p
  {
    if p < |f| && IsDigit(f[p]) then ScanPrec(f, p + 1, prec * 10 + DigitValue(f[p]), args, ap)
    else if p < |f| && f[p] == '*' then ScanPrec(f, p + 1, Max(args(ap).bits, -1), args, ap + 1)
    else (prec, p, ap)
  }

  /** Length modifiers move the rank up and down: -2 char, -1 short, 0 int, 1 long, 2 long long. */
  function NewRank(c: char, rank: int): Option<int> {
    if c == 'h' then Some(rank - 1)
    else if c == 'l' then Some(rank + 1)
    else if c == 'j' then Some(2)
    else if c == 'z' || c == 't' then Some(1)
    else if c == 'L' || c == 'q' then Some(rank + 2)
    else None
  }

  function ScanRank(f: string, p: nat, rank: int): (r: (int, nat))
    requires p <= |f|
    ensures p <= r.1 <= |f|
    decreases |f| - p
  {
    if p < |f| && NewRank(f[p], rank).Some? then ScanRank(f, p + 1, NewRank(f[p], rank).value) else (rank, p)
  }

  /** 2 to the number of bits of an integer of the given rank, on a 32-bit machine. */
  function Modulus(rank: int): int {
    if rank <= -2 then 0x100 else if rank == -1 then 0x1_0000 else if rank <= 1 then 0x1_0000_0000 else U64
  }

  function UnsignedArg(bits: int, rank: int): (r: nat)
    ensures r < U64
  {
    bits % Modulus(rank)
  }

  /** Truncated to the rank and sign extended to 64 bits. */
  function SignedArg(bits: int, rank: int): (r: nat)
    ensures r < U64
  {
    var m := bits % Modulus(rank);
    if m >= Modulus(rank) / 2 then U64 - Modulus(rank) + m else m
  }

  const ADDRESS_DIGITS: int := 8

  function CharArg(bits: int): char { (bits % 256) as char }

  function StringArg(a: Arg): string { if a.text.Some? then a.text.value else "(null)" }

  predicate TakesString(c: char) { c == 's' || c == 'c' }

  /** The text of one conversion and the number of arguments it takes. */
  function Convert(c: char, fl: Flags, width: int, prec: int, rank: int, a: Arg): (string, nat)
    requires TakesString(c) ==> prec >= -1
  {
    if c == 'P' then (IntText(UnsignedArg(a.bits, 1), fl.(upper := true, hash := true), 16, width, ADDRESS_DIGITS), 1)
    else if c == 'p' then (IntText(UnsignedArg(a.bits, 1), fl.(hash := true), 16, width, ADDRESS_DIGITS), 1)
    else if c == 'd' || c == 'i' then (IntText(SignedArg(a.bits, rank), fl.(signed := true), 10, width, prec), 1)
    else if c == 'o' then (IntText(UnsignedArg(a.bits, rank), fl, 8, width, prec), 1)
    else if c == 'u' then (IntText(UnsignedArg(a.bits, rank), fl, 10, width, prec), 1)
    else if c == 'X' then (IntText(UnsignedArg(a.bits, rank), fl.(upper := true), 16, width, prec), 1)
    else if c == 'x' then (IntText(UnsignedArg(a.bits, rank), fl, 16, width, prec), 1)
    else if c == 'c' then (StringText([CharArg(a.bits)], fl, width, prec), 1)
    else if c == 's' then (StringText(StringArg(a), fl, width, prec), 1)
    else if c == 'n' then ("", 1)
    else ([c], 0)
  }

  /** What a format prints; undefined if a string conversion ends up with a negative precision, as in
      "%.*5s" with a negative argument. */
  datatype Output = Text(text: string) | Undefined

  function Prepend(s: string, o: Output): Output { if o.Text? then Text(s + o.text) else o }

  function ClampRank(rank: int): int { if rank < -2 then -2 else if rank > 2 then 2 else rank }

  /** The output of the format from position p on, the next argument being number ap. */
  function Render(f: string, p: nat, args: Args, ap: nat): Output
    requires p <= |f|
    decreases |f| - p, 0
  {
    if p == |f| then Text("")
    else if f[p] != '%' then Prepend([f[p]], Render(f, p + 1, args, ap))
    else AfterFlags(f, p + 1, NO_FLAGS, args, ap)
  }

  // The rest of the output from within a directive, with what has been read of it so far.

  function AfterFlags(f: string, p: nat, fl: Flags, args: Args, ap: nat): Output
    requires p <= |f|
    decreases |f| - p, 4
  {
    var (fl', q) := ScanFlags(f, p, fl);
    AfterWidth(f, q, fl', 0, args, ap)
  }

  function AfterWidth(f: string, p: nat, fl: Flags, width: int, args: Args, ap: nat): Output
    requires p <= |f|
    decreases |f| - p, 3
  {
    var (fl', w, q, ap') := ScanWidth(f, p, fl, width, args, ap);
    if q < |f| && f[q] == '.' then AfterPrec(f, q + 1, fl', w, 0, args, ap')
    else AfterRank(f, q, fl', w, -1, 0, args, ap')
  }

  function AfterPrec(f: string, p: nat, fl: Flags, width: int, prec: int, args: Args, ap: nat): Output
    requires p <= |f|
    decreases |f| - p, 2
  {
    var (prec', q, ap') := ScanPrec(f, p, prec, args, ap);
    AfterRank(f, q, fl, width, prec', 0, args, ap')
  }

  function AfterRank(f: string, p: nat, fl: Flags, width: int, prec: int, rank: int, args: Args, ap: nat): Output
    requires p <= |f|
    decreases |f| - p, 1
  {
    var (r, q) := ScanRank(f, p, rank);
    if q == |f| then Text("")
    else if TakesString(f[q]) && prec < -1 then Undefined
    else
      var (t, k) := Convert(f[q], fl, width, prec, ClampRank(r), args(ap));
      Prepend(t, Render(f, q + 1, args, ap + k))
  }
}
