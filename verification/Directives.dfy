/** Where the directives of a format are, read off the format alone, and which of them vsnprintf cannot print.

    A string conversion with a precision below -1 is the one case in which usr/klibc/vsnprintf.c has no output:
    the loop over the characters counts down from a negative length. */
module Directives {
  import opened Format

  datatype Class = Flag | Count | Modifier

  predicate In(c: char, cls: Class) {
    match cls
    case Flag => c in "-+' #0"
    case Count => IsDigit(c) || c == '*'
    case Modifier => c in "hljztLq"
  }

  /** The first position from p on whose character is not of the class. */
  function Skip(f: string, p: nat, cls: Class): (q: nat)
    requires p <= |f|
    ensures p <= q <= |f|
    decreases |f| - p
  {
    if p < |f| && In(f[p], cls) then Skip(f, p + 1, cls) else p
  }

  function Stars(f: string, p: nat, q: nat): nat
    requires p <= q <= |f|
    decreases q - p
  {
    if p == q then 0 else (if f[p] == '*' then 1 else 0) + Stars(f, p + 1, q)
  }

  /** The parts of a directive that matter here: its precision is f[prec..precEnd], whose first `*` takes argument
      precArg; its conversion is at position conv and takes argument convArg. */
  datatype Directive = Directive(prec: nat, precEnd: nat, precArg: nat, conv: nat, convArg: nat)

  /** The directive whose text starts at p, behind the percent sign, with argument ap the next to be taken. */
  function DirectiveAt(f: string, p: nat, ap: nat): (d: Directive)
    requires p <= |f|
    ensures p <= d.prec <= d.precEnd <= d.conv <= |f|
  {
    var a := Skip(f, p, Flag);
    var b := Skip(f, a, Count);
    var precArg := ap + Stars(f, a, b);
    if b < |f| && f[b] == '.' then
      var e := Skip(f, b + 1, Count);
      Directive(b + 1, e, precArg, Skip(f, e, Modifier), precArg + Stars(f, b + 1, e))
    else
      Directive(b, b, precArg, Skip(f, b, Modifier), precArg)
  }

  /** Arguments taken by a conversion. */
  function Takes(c: char): nat { if c in "PpdiouXxcsn" then 1 else 0 }

  /** The positions outside directives that are reached from p on, each with the next argument. */
  function Grounds(f: string, p: nat, ap: nat): seq<(nat, nat)>
    requires p <= |f|
    decreases |f| - p
  {
    if p == |f| then []
    else if f[p] != '%' then [(p, ap)] + Grounds(f, p + 1, ap)
    else
      var d := DirectiveAt(f, p + 1, ap);
      [(p, ap)] + if d.conv == |f| then [] else Grounds(f, d.conv + 1, d.convArg + Takes(f[d.conv]))
  }

  // ---- negative precisions

  ghost predicate NoStars(f: string, p: nat, q: nat)
    requires p <= q <= |f|
  {
    forall i :: p <= i < q ==> f[i] != '*'
  }

  ghost predicate AllNines(f: string, p: nat, q: nat)
    requires p <= q <= |f|
  {
    forall i :: p <= i < q ==> f[i] == '9'
  }

  /** The last `*` of f[p..q] stands at k, takes a negative argument, and has digits behind it other than nines.
      A negative argument counts as -1, and each digit d makes 10 * prec + d of it. */
  ghost predicate NegativeFrom(f: string, p: nat, q: nat, args: Args, ap: nat, k: nat)
    requires p <= q <= |f|
  {
    p <= k < q && f[k] == '*' && NoStars(f, k + 1, q) && args(ap + Stars(f, p, k)).bits < 0 && !AllNines(f, k + 1, q)
  }

  ghost predicate Negative(f: string, p: nat, q: nat, args: Args, ap: nat)
    requires p <= q <= |f|
  {
    exists k: nat :: NegativeFrom(f, p, q, args, ap, k)
  }

  lemma NegativeStep(f: string, p: nat, q: nat, args: Args, ap: nat)
    requires p < q <= |f|
    ensures Negative(f, p, q, args, ap) <==>
      if f[p] == '*' then
        Negative(f, p + 1, q, args, ap + 1) || (NoStars(f, p + 1, q) && args(ap).bits < 0 && !AllNines(f, p + 1, q))
      else Negative(f, p + 1, q, args, ap)
  {
    var ap' := if f[p] == '*' then ap + 1 else ap;
    forall k: nat | k > p ensures NegativeFrom(f, p, q, args, ap, k) <==> NegativeFrom(f, p + 1, q, args, ap', k) {
      assert k < q ==> ap + Stars(f, p, k) == ap' + Stars(f, p + 1, k);
    }
    assert NegativeFrom(f, p, q, args, ap, p) <==>
      f[p] == '*' && NoStars(f, p + 1, q) && args(ap).bits < 0 && !AllNines(f, p + 1, q);
    var p' := p + 1;
    if k: nat :| NegativeFrom(f, p', q, args, ap', k) {
      assert NegativeFrom(f, p, q, args, ap, k);
    }
  }

  /** Reading on from a precision v, the outcome is below -1 in exactly these cases. */
  lemma {:induction false} ScanPrecSign(f: string, p: nat, v: int, args: Args, ap: nat)
    requires p <= |f|
    ensures var q := Skip(f, p, Count);
      && ScanPrec(f, p, v, args, ap).1 == q && ScanPrec(f, p, v, args, ap).2 == ap + Stars(f, p, q)
      && (ScanPrec(f, p, v, args, ap).0 < -1 <==>
        if NoStars(f, p, q) then v < -1 || (v == -1 && !AllNines(f, p, q)) else Negative(f, p, q, args, ap))
    decreases |f| - p
  {
    var q := Skip(f, p, Count);
    if p < |f| && In(f[p], Count) {
      var star := f[p] == '*';
      var v' := if star then Max(args(ap).bits, -1) else v * 10 + DigitValue(f[p]);
      ScanPrecSign(f, p + 1, v', args, if star then ap + 1 else ap);
      NegativeStep(f, p, q, args, ap);
      SpanStep(f, p, q);
    } else {
      assert NoStars(f, p, q) && AllNines(f, p, q);
    }
  }

  lemma SpanStep(f: string, p: nat, q: nat)
    requires p < q <= |f|
    ensures NoStars(f, p, q) <==> f[p] != '*' && NoStars(f, p + 1, q)
    ensures AllNines(f, p, q) <==> f[p] == '9' && AllNines(f, p + 1, q)
  {
  }

  // ---- directives

  /** The directive at ground position g is a string conversion that comes out with a precision below -1. */
  ghost predicate Fails(f: string, g: (nat, nat), args: Args) {
    && g.0 < |f| && f[g.0] == '%'
    && var d := DirectiveAt(f, g.0 + 1, g.1);
      d.conv < |f| && TakesString(f[d.conv]) && Negative(f, d.prec, d.precEnd, args, d.precArg)
  }

  /** No directive of the format fails on these arguments. */
  ghost predicate Printable(f: string, args: Args) {
    forall g | g in Grounds(f, 0, 0) :: !Fails(f, g, args)
  }

  lemma {:induction false} FlagsSkip(f: string, p: nat, fl: Flags)
    requires p <= |f|
    ensures ScanFlags(f, p, fl).1 == Skip(f, p, Flag)
    decreases |f| - p
  {
    if p < |f| && In(f[p], Flag) {
      FlagsSkip(f, p + 1, AddFlag(f[p], fl).value);
    }
  }

  lemma {:induction false} WidthSkip(f: string, p: nat, fl: Flags, width: int, args: Args, ap: nat)
    requires p <= |f|
    ensures var r, q := ScanWidth(f, p, fl, width, args, ap), Skip(f, p, Count);
      r.2 == q && r.3 == ap + Stars(f, p, q)
    decreases |f| - p
  {
    if p < |f| && IsDigit(f[p]) {
      WidthSkip(f, p + 1, fl, width * 10 + DigitValue(f[p]), args, ap);
    } else if p < |f| && f[p] == '*' {
      var w := args(ap).bits;
      WidthSkip(f, p + 1, if w < 0 then fl.(minus := true) else fl, if w < 0 then -w else w, args, ap + 1);
    }
  }

  lemma {:induction false} RankSkip(f: string, p: nat, rank: int)
    requires p <= |f|
    ensures ScanRank(f, p, rank).1 == Skip(f, p, Modifier)
    decreases |f| - p
  {
    if p < |f| && In(f[p], Modifier) {
      RankSkip(f, p + 1, NewRank(f[p], rank).value);
    }
  }

  /** The output from a conversion on. */
  ghost predicate Continues(o: Output, f: string, conv: nat, failing: bool, args: Args, ap: nat)
    requires conv <= |f|
  {
    if conv == |f| then o == Text("")
    else if TakesString(f[conv]) && failing then o == Undefined
    else o.Undefined? <==> Render(f, conv + 1, args, ap + Takes(f[conv])).Undefined?
  }

  lemma RankContinues(f: string, p: nat, fl: Flags, width: int, prec: int, args: Args, ap: nat)
    requires p <= |f|
    ensures Continues(AfterRank(f, p, fl, width, prec, 0, args, ap), f, Skip(f, p, Modifier), prec < -1, args, ap)
  {
    hide Render, IntText, StringText, UnsignedArg, SignedArg;
    RankSkip(f, p, 0);
  }

  lemma WidthContinues(f: string, p: nat, fl: Flags, args: Args, ap: nat)
    requires p <= |f|
    ensures var r := ScanWidth(f, p, fl, 0, args, ap);
      var b := r.2;
      AfterWidth(f, p, fl, 0, args, ap) ==
        if b < |f| && f[b] == '.' then
          var v := ScanPrec(f, b + 1, 0, args, r.3);
          AfterRank(f, v.1, r.0, r.1, v.0, 0, args, v.2)
        else AfterRank(f, b, r.0, r.1, -1, 0, args, r.3)
  {
    hide Render, AfterRank, AfterFlags;
    var r := ScanWidth(f, p, fl, 0, args, ap);
    var b := r.2;
    if b < |f| && f[b] == '.' {
      assert AfterWidth(f, p, fl, 0, args, ap) == AfterPrec(f, b + 1, r.0, r.1, 0, args, r.3);
    }
  }

  lemma DirectiveContinues(f: string, p: nat, args: Args, ap: nat)
    requires p <= |f|
    ensures var d := DirectiveAt(f, p, ap);
      Continues(AfterFlags(f, p, NO_FLAGS, args, ap), f, d.conv, Negative(f, d.prec, d.precEnd, args, d.precArg), args, d.convArg)
  {
    hide Render, AfterRank, AfterWidth, AfterPrec, Continues, Skip, Stars, Negative, NoStars;
    FlagsSkip(f, p, NO_FLAGS);
    var (fl, a) := ScanFlags(f, p, NO_FLAGS);
    WidthContinues(f, a, fl, args, ap);
    WidthSkip(f, a, fl, 0, args, ap);
    var (fl', w, b, ap') := ScanWidth(f, a, fl, 0, args, ap);
    if b < |f| && f[b] == '.' {
      ScanPrecSign(f, b + 1, 0, args, ap');
      var (prec, e, ap'') := ScanPrec(f, b + 1, 0, args, ap');
      NoStarsNotNegative(f, b + 1, e, args, ap');
      assert prec < -1 <==> Negative(f, b + 1, e, args, ap');
      RankContinues(f, e, fl', w, prec, args, ap'');
    } else {
      NoStarsNotNegative(f, b, b, args, ap');
      RankContinues(f, b, fl', w, -1, args, ap');
    }
  }

  lemma NoStarsNotNegative(f: string, p: nat, q: nat, args: Args, ap: nat)
    requires p <= q <= |f|
    ensures NoStars(f, p, q) ==> !Negative(f, p, q, args, ap)
    ensures p == q ==> NoStars(f, p, q)
  {
  }

  ghost predicate AnyFails(f: string, args: Args, gs: seq<(nat, nat)>) { exists g | g in gs :: Fails(f, g, args) }

  lemma AnyFailsStep(f: string, args: Args, g: (nat, nat), gs: seq<(nat, nat)>)
    ensures AnyFails(f, args, [g] + gs) <==> Fails(f, g, args) || AnyFails(f, args, gs)
    ensures !AnyFails(f, args, [])
  {
    hide Fails;
    assert g in [g] + gs;
    assert forall h :: h in [g] + gs <==> h == g || h in gs;
  }

  lemma GroundsStep(f: string, p: nat, ap: nat)
    requires p < |f|
    ensures Grounds(f, p, ap) == [(p, ap)] +
      if f[p] != '%' then Grounds(f, p + 1, ap)
      else
        var d := DirectiveAt(f, p + 1, ap);
        if d.conv == |f| then [] else Grounds(f, d.conv + 1, d.convArg + Takes(f[d.conv]))
  {
    hide DirectiveAt;
  }

  lemma RenderStep(f: string, p: nat, args: Args, ap: nat)
    requires p < |f|
    ensures f[p] != '%' ==> (Render(f, p, args, ap).Undefined? <==> Render(f, p + 1, args, ap).Undefined?)
    ensures f[p] == '%' ==> Render(f, p, args, ap) == AfterFlags(f, p + 1, NO_FLAGS, args, ap)
  {
    hide AfterFlags;
  }

  /** The output of a format is undefined if and only if a directive is reached that fails. */
  lemma {:induction false} UndefinedMeansFails(f: string, p: nat, args: Args, ap: nat)
    requires p <= |f|
    ensures Render(f, p, args, ap).Undefined? <==> AnyFails(f, args, Grounds(f, p, ap))
    decreases |f| - p
  {
    hide Grounds, AfterFlags, AnyFails, DirectiveAt, Negative, Render;
    if p == |f| {
      AtEnd(f, args, ap);
    } else {
      RenderStep(f, p, args, ap);
      GroundsStep(f, p, ap);
      if f[p] != '%' {
        UndefinedMeansFails(f, p + 1, args, ap);
        AnyFailsStep(f, args, (p, ap), Grounds(f, p + 1, ap));
      } else {
        var d := DirectiveAt(f, p + 1, ap);
        DirectiveContinues(f, p + 1, args, ap);
        if d.conv < |f| {
          UndefinedMeansFails(f, d.conv + 1, args, d.convArg + Takes(f[d.conv]));
          AnyFailsStep(f, args, (p, ap), Grounds(f, d.conv + 1, d.convArg + Takes(f[d.conv])));
        } else {
          AnyFailsStep(f, args, (p, ap), []);
        }
      }
    }
  }

  lemma AtEnd(f: string, args: Args, ap: nat)
    ensures Render(f, |f|, args, ap) == Text("") && Grounds(f, |f|, ap) == [] && !AnyFails(f, args, [])
  {
  }

  /** A format has an output if and only if it is printable. */
  lemma PrintableMeansText(f: string, args: Args)
    ensures Render(f, 0, args, 0).Text? <==> Printable(f, args)
  {
    hide Render, Grounds, Fails;
    UndefinedMeansFails(f, 0, args, 0);
  }

  lemma StarAndDigitParts(f: string)
    requires |f| == 5 && f[0] == '%' && f[1] == '.' && f[2] == '*' && IsDigit(f[3]) && f[4] == 's'
    ensures DirectiveAt(f, 1, 0) == Directive(2, 4, 0, 4, 1)
  {
    assert Skip(f, 4, Count) == 4 && Skip(f, 3, Count) == 4;
    assert Stars(f, 3, 4) == 0;
  }

  lemma StarAndDigitNegative(f: string, args: Args)
    requires |f| == 5 && f[2] == '*' && IsDigit(f[3])
    ensures Negative(f, 2, 4, args, 0) <==> args(0).bits < 0 && f[3] != '9'
  {
    hide Negative;
    NegativeStep(f, 2, 4, args, 0);
    NoStarsNotNegative(f, 3, 4, args, 1);
    assert NoStars(f, 3, 4) && (AllNines(f, 3, 4) <==> f[3] == '9');
  }

  /** A star for the precision, a digit behind it and a string conversion: such a format fails on every negative
      argument, unless the digit is a nine. */
  lemma StarAndDigit(f: string, args: Args)
    requires |f| == 5 && f[0] == '%' && f[1] == '.' && f[2] == '*' && IsDigit(f[3]) && f[4] == 's'
    ensures Printable(f, args) <==> args(0).bits >= 0 || f[3] == '9'
  {
    hide DirectiveAt, Negative, Skip, Stars, Grounds;
    StarAndDigitParts(f);
    StarAndDigitNegative(f, args);
    GroundsStep(f, 0, 0);
    AtEnd(f, args, 2);
    AnyFailsStep(f, args, (0, 0), []);
    assert Printable(f, args) <==> !AnyFails(f, args, Grounds(f, 0, 0));
  }

  /** The smallest failing format. */
  lemma FailingExample(args: Args)
    requires args(0).bits < 0
    ensures !Printable("%.*5s", args)
  {
    hide Printable, Grounds, Skip, Stars;
    StarAndDigit("%.*5s", args);
  }
}
