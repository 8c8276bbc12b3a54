/** The 64-bit division of usr/klibc/libgcc/__udivmoddi4.c: shift the denominator up, then subtract and
    shift down, one quotient bit at a time. */
module Division {
  import opened Powers
  import opened Wrappers

  type u64 = x: int | 0 <= x < 0x1_0000_0000_0000_0000

  /** A left shift by one, in 64 bits. */
  function Shl(x: u64): u64 { x * 2 % 0x1_0000_0000_0000_0000 }

  lemma ShlExact(x: u64)
    ensures x < 0x8000_0000_0000_0000 ==> Shl(x) == 2 * x
  {
  }

  /** Left-justify the denominator and count the shift in qbit. */
  method Justify(den: u64) returns (d: u64, qbit: u64, ghost k: nat)
    requires den != 0
    ensures qbit == Pow2(k) && d == den * qbit && 0x8000_0000_0000_0000 <= d
  {
    hide Pow2, Shl;
    Pow2Zero();
    d, qbit, k := den, 1, 0;
    while d < 0x8000_0000_0000_0000
      invariant qbit == Pow2(k) && d == den * qbit
      decreases 0x1_0000_0000_0000_0000 - d
    {
      DoubleBoth(den, qbit, d);
      Pow2Half(k + 1);
      ShlExact(d);
      ShlExact(qbit);
      d := Shl(d);
      qbit := Shl(qbit);
      k := k + 1;
    }
  }

  lemma DoubleBoth(den: nat, qbit: nat, d: nat)
    requires den >= 1 && d == den * qbit
    ensures den * (2 * qbit) == 2 * d && qbit <= d
  {
    assert (den - 1) * qbit >= 0;
  }

  /** Quotient and remainder for every denominator but zero, which traps. */
  method UDivMod(num: u64, den: u64) returns (r: Option<(u64, u64)>)
    ensures r.None? <==> den == 0
    ensures r.Some? ==> num == r.value.0 * den + r.value.1 && r.value.1 < den
    ensures r.Some? ==> r.value.0 == num / den && r.value.1 == num % den
  {
    if den == 0 {
      return None;
    }
    var d, qbit, k0 := Justify(den);
    var rest: u64, quot: u64 := num, 0;
    ghost var k := k0;
    while qbit != 0
      invariant num == quot * den + rest
      invariant if qbit == 0 then rest < den else qbit == Pow2(k) && d == den * qbit && rest < 2 * d
      decreases qbit
    {
      if d <= rest {
        TakeBit(num, den, quot, rest, qbit);
        rest := rest - d;
        quot := quot + qbit;
      }
      Halve(den, qbit, k);
      d := d / 2;
      qbit := qbit / 2;
      k := if k == 0 then 0 else k - 1;
    }
    DivModUnique(num, den, quot, rest);
    r := Some((quot, rest));
  }

  lemma TakeBit(num: nat, den: nat, quot: nat, rest: nat, qbit: nat)
    requires den >= 1 && num == quot * den + rest && den * qbit <= rest
    ensures num == (quot + qbit) * den + (rest - den * qbit) && quot + qbit <= num
  {
    assert (quot + qbit) * den == quot * den + den * qbit;
    DoubleBoth(den, quot + qbit, den * (quot + qbit));
  }

  lemma Halve(den: nat, qbit: nat, k: nat)
    requires qbit == Pow2(k)
    ensures if k == 0 then qbit / 2 == 0 && den * qbit == den
      else qbit / 2 == Pow2(k - 1) && den * qbit == 2 * (den * (qbit / 2))
  {
    if k > 0 {
      assert qbit == 2 * (qbit / 2);
    }
  }
}
