/** vsnprintf of usr/klibc/vsnprintf.c: the format state machine over the bounded output of module Printf. */
module Vsnprintf {
  import opened Wrappers
  import opened Directives
  import opened Format
  import opened Printf

  // ---- one conversion

  /** A window that starts further on is the same window. */
  lemma WindowShift(s: string, base: int, n: nat, pos: nat, t: string)
    ensures pos <= n ==> Window(s, base + pos, n - pos, 0, t) == Window(s, base, n, pos, t)
    ensures n <= pos ==> Window(s, base, n, pos, t) == s
    ensures forall q :: Window(s, q, 0, 0, t) == s
  {
  }

  method EmitInt(sink: Sink, val: nat, fl: Flags, radix: nat, width: int, prec: int)
    requires sink.Valid() && val < U64 && 2 <= radix <= 16
    modifies sink, sink.buf
    ensures sink.Valid() && sink.text == old(sink.text) + IntText(val, fl, radix, width, prec)
  {
    hide Window, IntText;
    ghost var was, text, t := sink.buf[..], sink.text, IntText(val, fl, radix, width, prec);
    var room := if sink.o < sink.n then sink.n - sink.o else 0;
    var sz := FormatInt(sink.buf, sink.q, room, val, fl, radix, width, prec);
    WindowShift(was, sink.base, sink.n, |text|, t);
    WindowConcat(sink.before, sink.base, sink.n, 0, text, t);
    sink.q := sink.q + sz;
    sink.o := sink.o + sz;
    sink.text := text + t;
  }

  method EmitText(sink: Sink, s: string, fl: Flags, width: int, prec: int)
    requires sink.Valid() && prec >= -1
    modifies sink, sink.buf
    ensures sink.Valid() && sink.text == old(sink.text) + StringText(s, fl, width, prec)
  {
    hide Window, Pad, StringText;
    var slen: nat := |s|;
    if prec != -1 && slen > prec {
      slen := prec;
    }
    var shown := s[..slen];
    ghost var start, gap := sink.text, width - slen;
    NoPad(' ', gap);
    NoPad('0', gap);
    var w := width;
    if w > slen && !fl.minus {
      sink.EmitPad(if fl.zero then '0' else ' ', w - slen);
      w := slen;
    }
    sink.EmitString(shown);
    if w > slen && fl.minus {
      sink.EmitPad(' ', w - slen);
    }
    StringTextParts(s, shown, fl, width, prec, start);
  }

  lemma StringTextParts(s: string, shown: string, fl: Flags, width: int, prec: int, start: string)
    requires prec >= -1 && shown == if prec != -1 && |s| > prec then s[..prec] else s[..|s|]
    ensures var gap := width - |shown|;
      start + StringText(s, fl, width, prec) ==
        if gap <= 0 then start + shown
        else if fl.minus then start + shown + Pad(' ', gap)
        else start + Pad(if fl.zero then '0' else ' ', gap) + shown
  {
    assert s[..|s|] == s;
    var gap := width - |shown|;
    NoPad(' ', gap);
    NoPad('0', gap);
    hide Pad;
    Concat3(start, shown, Pad(' ', gap));
    Concat3(start, Pad(if fl.zero then '0' else ' ', gap), shown);
  }

  /** The conversions; the result is the number of arguments taken. */
  method EmitConversion(sink: Sink, c: char, fl: Flags, width: int, prec: int, rank: int, a: Arg) returns (k: nat)
    requires sink.Valid() && (TakesString(c) ==> prec >= -1)
    modifies sink, sink.buf
    ensures sink.Valid()
    ensures (sink.text, k) == (old(sink.text) + Convert(c, fl, width, prec, rank, a).0, Convert(c, fl, width, prec, rank, a).1)
  {
    hide Window, IntText, StringText, UnsignedArg, SignedArg, CharArg;
    k := 1;
    match c {
      case 'P' => EmitInt(sink, UnsignedArg(a.bits, 1), fl.(upper := true, hash := true), 16, width, ADDRESS_DIGITS);
      case 'p' => EmitInt(sink, UnsignedArg(a.bits, 1), fl.(hash := true), 16, width, ADDRESS_DIGITS);
      case 'd' => EmitInt(sink, SignedArg(a.bits, rank), fl.(signed := true), 10, width, prec);
      case 'i' => EmitInt(sink, SignedArg(a.bits, rank), fl.(signed := true), 10, width, prec);
      case 'o' => EmitInt(sink, UnsignedArg(a.bits, rank), fl, 8, width, prec);
      case 'u' => EmitInt(sink, UnsignedArg(a.bits, rank), fl, 10, width, prec);
      case 'X' => EmitInt(sink, UnsignedArg(a.bits, rank), fl.(upper := true), 16, width, prec);
      case 'x' => EmitInt(sink, UnsignedArg(a.bits, rank), fl, 16, width, prec);
      case 'c' => EmitText(sink, [CharArg(a.bits)], fl, width, prec);
      case 's' => EmitText(sink, StringArg(a), fl, width, prec);
      case 'n' => assert sink.text + "" == sink.text;
      case _ =>
        sink.Emit(c);
        k := 0;
    }
  }

  // ---- the state machine

  datatype Mode = Normal | InFlags | InWidth | InPrec | InModifiers

  /** The local variables of vsnprintf: state, what has been read of the directive, and the two cursors. */
  datatype Parser = Parser(mode: Mode, fl: Flags, width: int, prec: int, rank: int, p: nat, ap: nat) {
    predicate Valid(f: string) {
      && p <= |f|
      && (mode == InFlags ==> width == 0)
      && (mode == InFlags || mode == InWidth ==> prec == -1)
      && (mode.InFlags? || mode.InWidth? || mode.InPrec? ==> rank == 0)
    }

    /** Modes left to pass through before a character is consumed. */
    function ModesLeft(): nat {
      match mode case InFlags => 4 case InWidth => 3 case InPrec => 2 case InModifiers => 1 case Normal => 0
    }

    /** The output still to come. */
    function Rest(f: string, args: Args): Output
      requires Valid(f)
    {
      match mode
      case Normal => Render(f, p, args, ap)
      case InFlags => AfterFlags(f, p, fl, args, ap)
      case InWidth => AfterWidth(f, p, fl, width, args, ap)
      case InPrec => AfterPrec(f, p, fl, width, prec, args, ap)
      case InModifiers => AfterRank(f, p, fl, width, prec, rank, args, ap)
    }
  }

  /** Whether this iteration prints, rather than only reading the directive on. */
  predicate Prints(st: Parser, c: char) {
    (st.mode.Normal? && c != '%') || (st.mode.InModifiers? && NewRank(c, st.rank).None?)
  }

  /** One iteration that reads part of a directive; a character that ends a part is looked at again. */
  function ScanStep(st: Parser, f: string, args: Args): (r: Parser)
    requires st.Valid(f) && st.p < |f| && !Prints(st, f[st.p])
    ensures r.Valid(f)
    ensures r.p == st.p + 1 || (r.p == st.p && r.ModesLeft() < st.ModesLeft())
  {
    var c := f[st.p];
    var next := st.(p := st.p + 1);
    match st.mode
    case Normal => next.(mode := InFlags, fl := NO_FLAGS, rank := 0, width := 0, prec := -1)
    case InFlags =>
      if AddFlag(c, st.fl).Some? then next.(fl := AddFlag(c, st.fl).value) else st.(mode := InWidth)
    case InWidth =>
      if IsDigit(c) then next.(width := st.width * 10 + DigitValue(c))
      else if c == '*' then
        var w := args(st.ap).bits;
        if w < 0 then next.(width := -w, fl := st.fl.(minus := true), ap := st.ap + 1)
        else next.(width := w, ap := st.ap + 1)
      else if c == '.' then next.(prec := 0, mode := InPrec)
      else st.(mode := InModifiers)
    case InPrec =>
      if IsDigit(c) then next.(prec := st.prec * 10 + DigitValue(c))
      else if c == '*' then
        var v := args(st.ap).bits;
        next.(prec := if v < 0 then -1 else v, ap := st.ap + 1)
      else st.(mode := InModifiers)
    case InModifiers => next.(rank := NewRank(c, st.rank).value)
  }

  lemma ScanKeepsRest(st: Parser, f: string, args: Args)
    requires st.Valid(f) && st.p < |f| && !Prints(st, f[st.p])
    ensures ScanStep(st, f, args).Rest(f, args) == st.Rest(f, args)
  {
    match st.mode
    case Normal =>
    case InFlags => FlagsStep(st.fl, f, st.p, args, st.ap);
    case InWidth => WidthStep(st, f, args);
    case InPrec => PrecStep(st, f, args);
    case InModifiers => RankStep(st, f, args);
  }

  lemma FlagsStep(fl: Flags, f: string, p: nat, args: Args, ap: nat)
    requires p < |f|
    ensures AfterFlags(f, p, fl, args, ap) ==
      if AddFlag(f[p], fl).Some? then AfterFlags(f, p + 1, AddFlag(f[p], fl).value, args, ap)
      else AfterWidth(f, p, fl, 0, args, ap)
  {
    hide AfterWidth, AddFlag;
  }

  lemma WidthStep(st: Parser, f: string, args: Args)
    requires st.Valid(f) && st.p < |f| && st.mode.InWidth?
    ensures ScanStep(st, f, args).Rest(f, args) == st.Rest(f, args)
  {
    hide AfterPrec, AfterRank, AfterFlags, Render;
  }

  lemma PrecStep(st: Parser, f: string, args: Args)
    requires st.Valid(f) && st.p < |f| && st.mode.InPrec?
    ensures ScanStep(st, f, args).Rest(f, args) == st.Rest(f, args)
  {
    hide AfterWidth, AfterRank, AfterFlags, Render;
  }

  lemma RankStep(st: Parser, f: string, args: Args)
    requires st.Valid(f) && st.p < |f| && st.mode.InModifiers? && !Prints(st, f[st.p])
    ensures ScanStep(st, f, args).Rest(f, args) == st.Rest(f, args)
  {
    hide AfterWidth, AfterPrec, AfterFlags, Render, Convert;
  }

  /** A directive cut short by the end of the format prints nothing. */
  lemma EndOfFormat(st: Parser, f: string, args: Args)
    requires st.Valid(f) && st.p == |f|
    ensures st.Rest(f, args) == Text("")
  {
    assert AfterRank(f, st.p, st.fl, st.width, st.prec, st.rank, args, st.ap) == Text("");
    match st.mode
    case InFlags => assert AfterWidth(f, st.p, st.fl, 0, args, st.ap) == Text("");
    case InWidth => assert AfterWidth(f, st.p, st.fl, st.width, args, st.ap) == Text("");
    case _ =>
  }

  lemma PrependConcat(s: string, t: string, o: Output)
    ensures Prepend(s, Prepend(t, o)) == Prepend(s + t, o)
  {
    if o.Text? {
      Concat3(s, t, o.text);
    }
  }

  /** A string conversion with a precision below -1, whose characters the source cannot count down. */
  predicate Unprintable(st: Parser, c: char) { st.mode.InModifiers? && TakesString(c) && st.prec < -1 }

  lemma UnprintableMeansUndefined(st: Parser, f: string, args: Args)
    requires st.Valid(f) && st.p < |f| && Prints(st, f[st.p])
    ensures Unprintable(st, f[st.p]) ==> st.Rest(f, args).Undefined?
  {
    hide Render, Convert;
  }

  lemma PlainRest(st: Parser, f: string, args: Args)
    requires st.Valid(f) && st.p < |f| && st.mode.Normal? && f[st.p] != '%'
    ensures st.Rest(f, args) == Prepend([f[st.p]], st.(p := st.p + 1).Rest(f, args))
  {
  }

  lemma ConversionRest(st: Parser, f: string, args: Args)
    requires st.Valid(f) && st.p < |f| && st.mode.InModifiers? && NewRank(f[st.p], st.rank).None?
    requires !Unprintable(st, f[st.p])
    ensures var (rank, c) := (ClampRank(st.rank), f[st.p]);
      var out := Convert(c, st.fl, st.width, st.prec, rank, args(st.ap));
      st.Rest(f, args) == Prepend(out.0, st.(mode := Normal, rank := rank, p := st.p + 1, ap := st.ap + out.1).Rest(f, args))
  {
    hide Render, Convert;
  }

  method PrintPlain(sink: Sink, st: Parser, f: string, ghost args: Args) returns (r: Parser)
    requires sink.Valid() && st.Valid(f) && st.p < |f| && st.mode.Normal? && f[st.p] != '%'
    modifies sink, sink.buf
    ensures sink.Valid() && r.Valid(f) && r.p == st.p + 1
    ensures Prepend(sink.text, r.Rest(f, args)) == Prepend(old(sink.text), st.Rest(f, args))
  {
    hide Window, Parser.Rest, Prepend;
    r := st.(p := st.p + 1);
    PlainRest(st, f, args);
    PrependConcat(sink.text, [f[st.p]], r.Rest(f, args));
    sink.Emit(f[st.p]);
  }

  method PrintConversion(sink: Sink, st: Parser, f: string, args: Args) returns (r: Parser)
    requires sink.Valid() && st.Valid(f) && st.p < |f| && st.mode.InModifiers? && NewRank(f[st.p], st.rank).None?
    requires !Unprintable(st, f[st.p])
    modifies sink, sink.buf
    ensures sink.Valid() && r.Valid(f) && r.p == st.p + 1
    ensures Prepend(sink.text, r.Rest(f, args)) == Prepend(old(sink.text), st.Rest(f, args))
  {
    hide Window, Parser.Rest, Prepend, Convert, ClampRank, NewRank;
    var c, rank, a := f[st.p], ClampRank(st.rank), args(st.ap);
    ghost var text, out := sink.text, Convert(c, st.fl, st.width, st.prec, rank, a);
    ConversionRest(st, f, args);
    var k := EmitConversion(sink, c, st.fl, st.width, st.prec, rank, a);
    r := st.(mode := Normal, rank := rank, p := st.p + 1, ap := st.ap + k);
    PrependConcat(text, out.0, r.Rest(f, args));
  }

  /** One iteration that prints: a plain character, or the conversion that ends a directive. */
  method PrintStep(sink: Sink, st: Parser, f: string, args: Args) returns (r: Parser)
    requires sink.Valid() && st.Valid(f) && st.p < |f| && Prints(st, f[st.p]) && !Unprintable(st, f[st.p])
    modifies sink, sink.buf
    ensures sink.Valid() && r.Valid(f) && r.p == st.p + 1
    ensures Prepend(sink.text, r.Rest(f, args)) == Prepend(old(sink.text), st.Rest(f, args))
  {
    hide Window, Parser.Rest, Prepend;
    if st.mode.Normal? {
      r := PrintPlain(sink, st, f, args);
    } else {
      r := PrintConversion(sink, st, f, args);
    }
  }

  function Min(a: int, b: int): int { if a < b then a else b }

  /** What a buffer holds after `text` has been printed into its first n characters: as much of the text as
      leaves room for the NUL, the NUL, and what was there before. */
  ghost predicate Truncated(now: string, was: string, n: nat, text: string) {
    && |now| == |was|
    && forall i :: 0 <= i < |now| ==>
      now[i] == if i < Min(|text|, n - 1) then text[i] else if i == Min(|text|, n - 1) then '\0' else was[i]
  }

  /** The machine runs to the end of the format and the text has been printed. */
  method RunFormat(sink: Sink, format: string, args: Args)
    requires sink.Valid() && sink.text == "" && Render(format, 0, args, 0).Text?
    modifies sink, sink.buf
    ensures sink.Valid() && Text(sink.text) == Render(format, 0, args, 0)
  {
    var st := Parser(Normal, NO_FLAGS, 0, -1, 0, 0, 0);
    ghost var goal := Render(format, 0, args, 0);
    assert st.Rest(format, args) == goal;
    assert "" + goal.text == goal.text;
    hide Window, Parser.Rest, Render, Prints, ScanStep, Unprintable;
    while st.p < |format|
      invariant sink.Valid() && st.Valid(format) && Prepend(sink.text, st.Rest(format, args)) == goal
      decreases |format| - st.p, st.ModesLeft()
    {
      if Prints(st, format[st.p]) {
        UnprintableMeansUndefined(st, format, args);
        st := PrintStep(sink, st, format, args);
      } else {
        ScanKeepsRest(st, format, args);
        st := ScanStep(st, format, args);
      }
    }
    EndOfFormat(st, format, args);
  }

  /** vsnprintf: the length of the text, whatever n is, and the text cut to n characters in the buffer. The format
      is one that has an output on these arguments, see module Directives. */
  method Vsnprintf(buffer: array<char>, n: nat, format: string, args: Args) returns (r: nat)
    requires n <= buffer.Length && Printable(format, args)
    modifies buffer
    ensures Render(format, 0, args, 0).Text? && r == |Render(format, 0, args, 0).text|
    ensures Truncated(buffer[..], old(buffer[..]), n, Render(format, 0, args, 0).text)
  {
    hide Render, Printable;
    PrintableMeansText(format, args);
    var sink := new Sink(buffer, 0, n);
    RunFormat(sink, format, args);
    if sink.o < n {
      buffer[sink.q] := '\0';
    } else if n > 0 {
      buffer[n - 1] := '\0';
    }
    r := sink.o;
  }
}
