/** What a directive of a format means to usr/klibc/vsnprintf.c, told from its spelling: the flags that occur in
    it, its width and precision as numbers or arguments, and the integer type that its length modifiers name. */
module Spelling {
  import opened Wrappers
  import opened Format
  import opened Directives
  import opened Strntoumax
  import opened RoundTrip

  /** A width or a precision: some decimal digits, or a star for an argument. */
  datatype Amount = Number(digits: string) | Star

  datatype Spec = Spec(flags: string, width: Amount, prec: Option<Amount>, modifiers: string, conv: char)

  function AmountText(a: Amount): string { if a.Star? then "*" else a.digits }

  function PrecText(a: Option<Amount>): string { if a.Some? then "." + AmountText(a.value) else "" }

  /** The directive, as it is written. */
  function Spell(d: Spec): string {
    "%" + (d.flags + (AmountText(d.width) + (PrecText(d.prec) + (d.modifiers + [d.conv]))))
  }

  predicate IsFlag(c: char) { c == '-' || c == '+' || c == '\'' || c == ' ' || c == '#' || c == '0' }

  predicate IsModifier(c: char) { c == 'h' || c == 'l' || c == 'j' || c == 'z' || c == 't' || c == 'L' || c == 'q' }

  /** c belongs to no flags, width or precision. */
  predicate Ends(c: char) { !IsFlag(c) && !IsDigit(c) && c != '*' && c != '.' }

  predicate Decimal(s: string) { forall i :: 0 <= i < |s| ==> '0' <= s[i] <= '9' }

  predicate Relative(m: string) {
    forall i :: 0 <= i < |m| ==> m[i] == 'h' || m[i] == 'l' || m[i] == 'q' || m[i] == 'L'
  }

  predicate Absolute(m: string) { m == "j" || m == "z" || m == "t" }

  /** A directive spelled in the usual order; a width that starts with a zero would be a flag and a width. */
  ghost predicate WellSpelled(d: Spec) {
    && (forall i :: 0 <= i < |d.flags| ==> IsFlag(d.flags[i]))
    && (d.width.Number? ==> Decimal(d.width.digits) && (d.width.digits != "" ==> d.width.digits[0] != '0'))
    && (d.prec.Some? && d.prec.value.Number? ==> Decimal(d.prec.value.digits))
    && (Absolute(d.modifiers) || Relative(d.modifiers))
    && Ends(d.conv) && !IsModifier(d.conv)
  }

  // ---- what the parts mean

  function FlagsIn(s: string): Flags {
    Flags('0' in s, '-' in s, '+' in s, '\'' in s, ' ' in s, '#' in s, false, false)
  }

  function Taken(a: Amount): nat { if a.Star? then 1 else 0 }

  function AmountOf(a: Amount, args: Args, ap: nat): int { if a.Star? then args(ap).bits else Numeral(a.digits, 10) }

  /** h is one step down from int, l one step up, q and L two; the smallest type is char, the largest long long. */
  function RankOf(m: string): int {
    if m == "j" then 2 else if m == "z" || m == "t" then 1
    else
      var k := Steps(m);
      if k < -2 then -2 else if k > 2 then 2 else k
  }

  function Steps(m: string): int {
    var n := multiset(m);
    n['l'] as int - n['h'] + 2 * n['q'] + 2 * n['L']
  }

  // ---- scanning

  predicate Flagged(f: string, p: nat, q: nat) { p <= q <= |f| && forall i :: p <= i < q ==> IsFlag(f[i]) }

  function Join(fl: Flags, g: Flags): Flags {
    Flags(fl.zero || g.zero, fl.minus || g.minus, fl.plus || g.plus, fl.tick || g.tick, fl.space || g.space,
          fl.hash || g.hash, fl.signed || g.signed, fl.upper || g.upper)
  }

  lemma InFront(x: char, c: char, s: string)
    ensures x in [c] + s <==> x == c || x in s
  {
  }

  lemma FlagStep(fl: Flags, c: char, s: string)
    requires IsFlag(c)
    ensures AddFlag(c, fl).Some?
    ensures Join(AddFlag(c, fl).value, FlagsIn(s)) == Join(fl, FlagsIn([c] + s))
  {
    var t := [c] + s;
    InFront('0', c, s);
    InFront('-', c, s);
    InFront('+', c, s);
    InFront('\'', c, s);
    InFront(' ', c, s);
    InFront('#', c, s);
    assert FlagsIn(t)
        == Join(FlagsIn(s), Flags(c == '0', c == '-', c == '+', c == '\'', c == ' ', c == '#', false, false));
  }

  lemma {:induction false} FlagsScanned(f: string, p: nat, q: nat, fl: Flags)
    requires Flagged(f, p, q) && q < |f| && !IsFlag(f[q])
    ensures ScanFlags(f, p, fl) == (Join(fl, FlagsIn(f[p..q])), q)
    decreases q - p
  {
    hide FlagsIn, AddFlag, Join;
    if p == q {
      NoFlags(f, p, fl);
    } else {
      FlagStep(fl, f[p], f[p + 1..q]);
      assert f[p..q] == [f[p]] + f[p + 1..q];
      FlagsScanned(f, p + 1, q, AddFlag(f[p], fl).value);
    }
  }

  lemma NoFlags(f: string, p: nat, fl: Flags)
    requires p < |f| && !IsFlag(f[p])
    ensures f[p..p] == "" && AddFlag(f[p], fl).None? && Join(fl, FlagsIn("")) == fl
  {
  }

  lemma {:induction false} WidthScanned(f: string, a: nat, p: nat, q: nat, fl: Flags, args: Args, ap: nat)
    requires a <= p <= q < |f| && Decimal(f[a..q]) && !IsDigit(f[q]) && f[q] != '*'
    ensures ScanWidth(f, p, fl, Numeral(f[a..p], 10), args, ap) == (fl, Numeral(f[a..q], 10), q, ap)
    decreases q - p
  {
    hide Numeral;
    if p < q {
      DecimalAt(f, a, p, q);
      WidthScanned(f, a, p + 1, q, fl, args, ap);
    }
  }

  lemma {:induction false} PrecScanned(f: string, a: nat, p: nat, q: nat, args: Args, ap: nat)
    requires a <= p <= q < |f| && Decimal(f[a..q]) && !IsDigit(f[q]) && f[q] != '*'
    ensures ScanPrec(f, p, Numeral(f[a..p], 10), args, ap) == (Numeral(f[a..q], 10), q, ap)
    decreases q - p
  {
    hide Numeral;
    if p < q {
      DecimalAt(f, a, p, q);
      PrecScanned(f, a, p + 1, q, args, ap);
    }
  }

  lemma DecimalAt(f: string, a: nat, p: nat, q: nat)
    requires a <= p < q <= |f| && Decimal(f[a..q])
    ensures IsDigit(f[p]) && Numeral(f[a..p + 1], 10) == Numeral(f[a..p], 10) * 10 + DigitValue(f[p])
  {
    hide Numeral;
    assert f[a..q][p - a] == f[p];
    assert f[a..p + 1] == f[a..p] + [f[p]];
    NumeralAppend(f[a..p], f[p], 10);
  }

  lemma StepsFront(c: char, m: string)
    ensures Steps([c] + m) == Steps(m)
      + if c == 'l' then 1 else if c == 'h' then -1 else if c == 'q' || c == 'L' then 2 else 0
  {
  }

  lemma {:induction false} RankScanned(f: string, p: nat, q: nat, rank: int)
    requires p <= q < |f| && Relative(f[p..q]) && !IsModifier(f[q])
    ensures ScanRank(f, p, rank) == (rank + Steps(f[p..q]), q)
    decreases q - p
  {
    hide Steps;
    if p == q {
      assert f[p..q] == "";
      assert Steps("") == 0 by {
        NoSteps();
      }
    } else {
      assert f[p..q][0] == f[p];
      assert f[p..q] == [f[p]] + f[p + 1..q];
      StepsFront(f[p], f[p + 1..q]);
      RelativeTail(f[p..q]);
      assert f[p..q][1..] == f[p + 1..q];
      RankScanned(f, p + 1, q, NewRank(f[p], rank).value);
    }
  }

  lemma RelativeTail(m: string)
    requires m != "" && Relative(m)
    ensures Relative(m[1..])
  {
  }

  lemma NoSteps()
    ensures Steps("") == 0
  {
  }

  lemma {:induction false} NumeralNonneg(s: string)
    requires Decimal(s)
    ensures Numeral(s, 10) >= 0
    decreases |s|
  {
    if s != "" {
      NumeralNonneg(s[..|s| - 1]);
    }
  }

  // ---- the parts of a directive in place

  /** The text s stands in f from p up to q. */
  predicate At(f: string, p: nat, q: nat, s: string) { p <= q <= |f| && f[p..q] == s }

  predicate Proper(a: Amount) { a.Number? ==> Decimal(a.digits) }

  function WidthOf(a: Amount, args: Args, ap: nat): int {
    var w := AmountOf(a, args, ap);
    if w < 0 then -w else w
  }

  /** A negative argument for the width asks for left justification. */
  function FlagsWith(fl: Flags, a: Amount, args: Args, ap: nat): Flags {
    if a.Star? && args(ap).bits < 0 then fl.(minus := true) else fl
  }

  function PrecTaken(d: Spec): nat { if d.prec.Some? then Taken(d.prec.value) else 0 }

  function PrecOf(a: Option<Amount>, args: Args, ap: nat): (r: int)
    ensures r >= -1
  {
    if a.Some? then Max(AmountOf(a.value, args, ap), -1) else -1
  }

  lemma WidthPart(f: string, p: nat, q: nat, a: Amount, fl: Flags, args: Args, ap: nat)
    requires At(f, p, q, AmountText(a)) && Proper(a) && q < |f| && !IsDigit(f[q]) && f[q] != '*'
    ensures ScanWidth(f, p, fl, 0, args, ap)
         == (FlagsWith(fl, a, args, ap), WidthOf(a, args, ap), q, ap + Taken(a))
  {
    if a.Star? {
      assert f[p] == f[p..q][0] == '*';
    } else {
      hide ScanWidth;
      WidthScanned(f, p, p, q, fl, args, ap);
      assert f[p..p] == "";
      NumeralNonneg(a.digits);
    }
  }

  lemma PrecPart(f: string, p: nat, q: nat, a: Amount, args: Args, ap: nat)
    requires At(f, p, q, AmountText(a)) && Proper(a) && q < |f| && !IsDigit(f[q]) && f[q] != '*'
    ensures ScanPrec(f, p, 0, args, ap) == (PrecOf(Some(a), args, ap), q, ap + Taken(a))
  {
    if a.Star? {
      assert f[p] == f[p..q][0] == '*';
    } else {
      hide ScanPrec;
      PrecScanned(f, p, p, q, args, ap);
      assert f[p..p] == "";
      NumeralNonneg(a.digits);
    }
  }

  lemma RankPart(f: string, p: nat, q: nat, m: string)
    requires At(f, p, q, m) && (Absolute(m) || Relative(m)) && q < |f| && !IsModifier(f[q])
    ensures ScanRank(f, p, 0).1 == q && ClampRank(ScanRank(f, p, 0).0) == RankOf(m)
  {
    hide Steps;
    if Absolute(m) {
      assert f[p] == f[p..q][0];
      assert ScanRank(f, q, 2) == (2, q) && ScanRank(f, q, 1) == (1, q);
    } else {
      RankScanned(f, p, q, 0);
    }
  }

  /** What the directive prints: a conversion of the argument whose turn it is, under the flags, width, precision
      and type that the spelling names. */
  function Printed(d: Spec, args: Args, ap: nat): (string, nat) {
    var k := ap + Taken(d.width) + PrecTaken(d);
    var (t, n) := Convert(d.conv, FlagsWith(FlagsIn(d.flags), d.width, args, ap), WidthOf(d.width, args, ap),
                          PrecOf(d.prec, args, ap + Taken(d.width)), RankOf(d.modifiers), args(k));
    (t, k + n)
  }

  lemma Cut(f: string, p: nat, q: nat, s: string, t: string)
    requires At(f, p, q, s + t)
    ensures At(f, p, p + |s|, s) && At(f, p + |s|, q, t) && (t != "" ==> f[p + |s|] == t[0])
  {
    assert |s + t| == q - p;
    assert f[p..p + |s|] == (s + t)[..|s|] == s;
    assert f[p + |s|..q] == (s + t)[|s|..] == t;
  }

  lemma ModifiersEnd(d: Spec)
    requires WellSpelled(d)
    ensures Ends((d.modifiers + [d.conv])[0])
  {
  }

  lemma PrecEnds(d: Spec)
    requires WellSpelled(d)
    ensures var t := PrecText(d.prec) + (d.modifiers + [d.conv]);
            if d.prec.Some? then t[0] == '.' else t == d.modifiers + [d.conv] && Ends(t[0])
  {
    hide Ends, IsFlag, WellSpelled;
    ModifiersEnd(d);
    assert "" + (d.modifiers + [d.conv]) == d.modifiers + [d.conv];
  }

  lemma WidthEnds(d: Spec)
    requires WellSpelled(d)
    ensures !IsFlag((AmountText(d.width) + (PrecText(d.prec) + (d.modifiers + [d.conv])))[0])
  {
    PrecEnds(d);
  }

  /** The output from the precision of d on, d ending at e. */
  function Outcome(f: string, e: nat, d: Spec, fl: Flags, width: int, args: Args, ap: nat): Output
    requires e <= |f|
  {
    var k := ap + PrecTaken(d);
    var (t, n) := Convert(d.conv, fl, width, PrecOf(d.prec, args, ap), RankOf(d.modifiers), args(k));
    Prepend(t, Render(f, e, args, k + n))
  }

  lemma ModifiersMean(f: string, p: nat, e: nat, d: Spec, fl: Flags, width: int, args: Args, ap: nat)
    requires WellSpelled(d) && At(f, p, e, d.modifiers + [d.conv])
    ensures AfterRank(f, p, fl, width, PrecOf(d.prec, args, ap), 0, args, ap + PrecTaken(d))
         == Outcome(f, e, d, fl, width, args, ap)
  {
    hide Render, Convert, RankOf, ScanRank, PrecOf;
    Cut(f, p, e, d.modifiers, [d.conv]);
    RankPart(f, p, p + |d.modifiers|, d.modifiers);
  }

  lemma PrecGiven(f: string, p: nat, e: nat, d: Spec, fl: Flags, width: int, args: Args, ap: nat)
    requires WellSpelled(d) && d.prec.Some? && At(f, p, e, PrecText(d.prec) + (d.modifiers + [d.conv]))
    ensures p < |f| && f[p] == '.'
    ensures var v := ScanPrec(f, p + 1, 0, args, ap);
            AfterRank(f, v.1, fl, width, v.0, 0, args, v.2) == Outcome(f, e, d, fl, width, args, ap)
  {
    hide AfterRank, Outcome, ScanPrec, PrecOf, WellSpelled, AmountText;
    var q := p + |PrecText(d.prec)|;
    Cut(f, p, e, PrecText(d.prec), d.modifiers + [d.conv]);
    Cut(f, p, q, ".", AmountText(d.prec.value));
    assert f[p] == f[p..p + 1][0];
    ModifiersEnd(d);
    ProperPrec(d);
    PrecPart(f, p + 1, q, d.prec.value, args, ap);
    ModifiersMean(f, q, e, d, fl, width, args, ap);
  }

  lemma PrecAbsent(f: string, p: nat, e: nat, d: Spec, fl: Flags, width: int, args: Args, ap: nat)
    requires WellSpelled(d) && d.prec.None? && At(f, p, e, PrecText(d.prec) + (d.modifiers + [d.conv]))
    ensures p < |f| && Ends(f[p])
    ensures AfterRank(f, p, fl, width, -1, 0, args, ap) == Outcome(f, e, d, fl, width, args, ap)
  {
    hide AfterRank, Outcome, WellSpelled, Ends;
    Cut(f, p, e, "", d.modifiers + [d.conv]);
    ModifiersEnd(d);
    ModifiersMean(f, p, e, d, fl, width, args, ap);
  }

  lemma ProperPrec(d: Spec)
    requires WellSpelled(d)
    ensures d.prec.Some? ==> Proper(d.prec.value)
    ensures Proper(d.width)
  {
  }

  lemma CountsMean(f: string, p: nat, e: nat, d: Spec, fl: Flags, args: Args, ap: nat)
    requires WellSpelled(d) && At(f, p, e, AmountText(d.width) + (PrecText(d.prec) + (d.modifiers + [d.conv])))
    ensures AfterWidth(f, p, fl, 0, args, ap)
         == Outcome(f, e, d, FlagsWith(fl, d.width, args, ap), WidthOf(d.width, args, ap), args, ap + Taken(d.width))
  {
    hide AfterWidth, AfterRank, Outcome, FlagsWith, WidthOf, ScanWidth, ScanPrec, WellSpelled, PrecText, AmountText;
    var b := p + |AmountText(d.width)|;
    Cut(f, p, e, AmountText(d.width), PrecText(d.prec) + (d.modifiers + [d.conv]));
    var fl', w, ap' := FlagsWith(fl, d.width, args, ap), WidthOf(d.width, args, ap), ap + Taken(d.width);
    if d.prec.Some? {
      PrecGiven(f, b, e, d, fl', w, args, ap');
    } else {
      PrecAbsent(f, b, e, d, fl', w, args, ap');
    }
    ProperPrec(d);
    WidthPart(f, p, b, d.width, fl, args, ap);
    WidthContinues(f, p, fl, args, ap);
  }

  /** Every well-spelled directive, wherever it stands in a format, prints what its spelling says and hands on to
      the rest of the format. */
  lemma DirectiveMeans(f: string, p: nat, d: Spec, args: Args, ap: nat)
    requires WellSpelled(d) && At(f, p, p + |Spell(d)|, Spell(d))
    ensures Render(f, p, args, ap)
         == Prepend(Printed(d, args, ap).0, Render(f, p + |Spell(d)|, args, Printed(d, args, ap).1))
  {
    hide AfterWidth, AfterFlags, Convert, RankOf, FlagsWith, WidthOf, FlagsIn, AmountText, PrecText;
    var e := p + |Spell(d)|;
    var counts := AmountText(d.width) + (PrecText(d.prec) + (d.modifiers + [d.conv]));
    Cut(f, p, e, "%", d.flags + counts);
    Cut(f, p + 1, e, d.flags, counts);
    var b := p + 1 + |d.flags|;
    WidthEnds(d);
    FlagsMean(f, p + 1, b, d.flags, args, ap);
    CountsMean(f, b, e, d, FlagsIn(d.flags), args, ap);
  }

  lemma FlagsMean(f: string, p: nat, q: nat, flags: string, args: Args, ap: nat)
    requires At(f, p, q, flags) && (forall i :: 0 <= i < |flags| ==> IsFlag(flags[i]))
    requires q < |f| && !IsFlag(f[q])
    ensures AfterFlags(f, p, NO_FLAGS, args, ap) == AfterWidth(f, q, FlagsIn(flags), 0, args, ap)
  {
    hide AfterWidth, Render, ScanFlags;
    forall i | p <= i < q ensures IsFlag(f[i]) {
      assert f[i] == flags[i - p];
    }
    FlagsScanned(f, p, q, NO_FLAGS);
  }

  /** Text without a percent sign prints itself. */
  lemma {:induction false} PlainTextMeans(f: string, p: nat, q: nat, args: Args, ap: nat)
    requires p <= q <= |f| && forall i :: p <= i < q ==> f[i] != '%'
    ensures Render(f, p, args, ap) == Prepend(f[p..q], Render(f, q, args, ap))
    decreases q - p
  {
    hide AfterFlags;
    if p == q {
      assert f[p..q] == "";
      assert Render(f, p, args, ap).Text? ==> "" + Render(f, p, args, ap).text == Render(f, p, args, ap).text;
    } else {
      PlainTextMeans(f, p + 1, q, args, ap);
      var rest := Render(f, q, args, ap);
      assert f[p..q] == [f[p]] + f[p + 1..q];
      assert rest.Text? ==> [f[p]] + (f[p + 1..q] + rest.text) == f[p..q] + rest.text;
    }
  }
}
