/** The comb sort that usr/klibc/qsort.c provides as qsort. */
module CombSort {

  ghost predicate TotalPreorder<T(!new)>(le: (T, T) -> bool) {
    && (forall x, y :: le(x, y) || le(y, x))
    && (forall x, y, z :: le(x, y) && le(y, z) ==> le(x, z))
  }

  ghost predicate Sorted<T>(s: seq<T>, le: (T, T) -> bool) {
    forall i, j :: 0 <= i <= j < |s| ==> le(s[i], s[j])
  }

  /** 2 to the width of size_t. */
  const M: int := 0x1_0000_0000

  /** Shrinks every gap above one, although 9 and 10 are raised to 11 and the product wraps around from
      429496730 on, and never goes below one. */
  function NewGap(gap: nat): (r: nat)
    ensures r >= 1 && (gap > 1 ==> r < gap)
    ensures r <= gap <==> gap >= 1
  {
    var g := gap * 10 % M / 13;
    var g := if g == 9 || g == 10 then 11 else g;
    if g < 1 then 1 else g
  }

  /** A gap becomes ten thirteenths of itself, except that nine and ten become eleven; from 429496730 on, of the
      remainder that is left of ten times the gap. */
  lemma GapRatio(gap: nat)
    requires 2 <= gap < 429496730
    ensures 13 * NewGap(gap) <= 10 * gap < 13 * NewGap(gap) + 13 <==> !(12 <= gap <= 14)
    ensures 12 <= gap <= 14 ==> NewGap(gap) == 11
  {
  }

  /** The bound of the inner loop, a difference of two sizes, keeps the loop inside the array if and only if there
      is an element: without any, the first gap is one, and one less than none is the largest size. */
  lemma BoundStaysInside(n: nat, gap: nat)
    requires n < M && gap == NewGap(n)
    ensures (n - gap) % M + gap <= n <==> n >= 1
  {
  }

  function Swap<T>(s: seq<T>, i: nat, j: nat): (r: seq<T>)
    requires i < |s| && j < |s|
  {
    s[i := s[j]][j := s[i]]
  }

  lemma SwapPermutes<T>(s: seq<T>, i: nat, j: nat)
    requires i < j < |s|
    ensures multiset(Swap(s, i, j)) == multiset(s)
  {
    assert s == s[..i] + [s[i]] + s[i + 1..j] + [s[j]] + s[j + 1..];
    assert Swap(s, i, j) == s[..i] + [s[j]] + s[i + 1..j] + [s[i]] + s[j + 1..];
  }

  // ---- the termination measure of the passes at gap one

  ghost function Smaller<T>(x: T, s: seq<T>, le: (T, T) -> bool): nat {
    if s == [] then 0 else (if le(x, s[0]) then 0 else 1) + Smaller(x, s[1..], le)
  }

  /** The number of pairs that stand in the wrong order. */
  ghost function Inversions<T>(s: seq<T>, le: (T, T) -> bool): nat {
    if s == [] then 0 else Smaller(s[0], s[1..], le) + Inversions(s[1..], le)
  }

  lemma {:induction false} SmallerAfterSwap<T(!new)>(x: T, s: seq<T>, i: nat, le: (T, T) -> bool)
    requires i + 1 < |s|
    ensures Smaller(x, Swap(s, i, i + 1), le) == Smaller(x, s, le)
    decreases i
  {
    var r := Swap(s, i, i + 1);
    if i == 0 {
      assert r[1..][1..] == s[1..][1..];
    } else {
      assert r[1..] == Swap(s[1..], i - 1, i);
      SmallerAfterSwap(x, s[1..], i - 1, le);
    }
  }

  /** Swapping two neighbours that stand in the wrong order removes exactly one inversion. */
  lemma {:induction false} SwapRemovesInversion<T(!new)>(s: seq<T>, i: nat, le: (T, T) -> bool)
    requires TotalPreorder(le) && i + 1 < |s| && !le(s[i], s[i + 1])
    ensures Inversions(Swap(s, i, i + 1), le) == Inversions(s, le) - 1
    decreases i
  {
    var r := Swap(s, i, i + 1);
    if i == 0 {
      assert r[1..][1..] == s[1..][1..];
      assert Inversions(s, le) == Smaller(s[0], s[1..], le) + Smaller(s[1], s[1..][1..], le) + Inversions(s[1..][1..], le);
      assert Inversions(r, le) == Smaller(r[0], r[1..], le) + Smaller(r[1], r[1..][1..], le) + Inversions(r[1..][1..], le);
    } else {
      assert r[1..] == Swap(s[1..], i - 1, i);
      SmallerAfterSwap(s[0], s[1..], i - 1, le);
      SwapRemovesInversion(s[1..], i - 1, le);
    }
  }

  /** A sequence in which all neighbours are in order is sorted. */
  lemma {:induction false} NeighboursSorted<T(!new)>(s: seq<T>, le: (T, T) -> bool)
    requires TotalPreorder(le) && forall i :: 0 <= i < |s| - 1 ==> le(s[i], s[i + 1])
    ensures Sorted(s, le)
  {
    if |s| > 1 {
      var front := s[..|s| - 1];
      NeighboursSorted(front, le);
      forall i, j | 0 <= i <= j < |s|
        ensures le(s[i], s[j])
      {
        if j == |s| - 1 && i < j {
          assert le(front[i], front[j - 1]) && le(s[j - 1], s[j - 1 + 1]);
        } else if j < |s| - 1 {
          assert le(front[i], front[j]);
        }
      }
    }
  }

  // ---- the sort

  method SwapAt<T>(a: array<T>, i: nat, j: nat)
    requires i < j < a.Length
    modifies a
    ensures a[..] == Swap(old(a[..]), i, j)
  {
    a[i], a[j] := a[j], a[i];
  }

  /** One pass: compare all elements `gap` apart, swap those out of order. */
  method Pass<T(!new)>(a: array<T>, gap: nat, le: (T, T) -> bool) returns (swapped: bool)
    requires TotalPreorder(le) && 1 <= gap <= a.Length
    modifies a
    ensures multiset(a[..]) == multiset(old(a[..]))
    ensures !swapped ==> a[..] == old(a[..]) && forall i :: 0 <= i < a.Length - gap ==> le(a[i], a[i + gap])
    ensures swapped && gap == 1 ==> Inversions(a[..], le) < Inversions(old(a[..]), le)
  {
    hide Inversions, TotalPreorder;
    swapped := false;
    for i := 0 to a.Length - gap
      invariant multiset(a[..]) == multiset(old(a[..]))
      invariant !swapped ==> a[..] == old(a[..]) && forall k :: 0 <= k < i ==> le(a[k], a[k + gap])
      invariant swapped && gap == 1 ==> Inversions(a[..], le) < Inversions(old(a[..]), le)
    {
      var j := i + gap;
      if !le(a[i], a[j]) {
        ghost var s := a[..];
        SwapPermutes(s, i, j);
        if gap == 1 {
          SwapRemovesInversion(s, i, le);
        }
        SwapAt(a, i, j);
        swapped := true;
      }
    }
  }

  /** qsort: terminates, because the gap shrinks until it is one and from then on the inversions do;
      the last pass, which swapped nothing, has seen every pair of neighbours in order. */
  method Qsort<T(!new)>(a: array<T>, le: (T, T) -> bool)
    requires TotalPreorder(le) && 1 <= a.Length < M
    modifies a
    ensures Sorted(a[..], le) && multiset(a[..]) == multiset(old(a[..]))
  {
    var gap, swapped := a.Length, true;
    while gap > 1 || swapped
      invariant 1 <= gap <= a.Length && multiset(a[..]) == multiset(old(a[..]))
      invariant gap == 1 && !swapped ==> forall i :: 0 <= i < a.Length - 1 ==> le(a[i], a[i + 1])
      decreases gap, if swapped then 1 else 0, Inversions(a[..], le)
    {
      gap := NewGap(gap);
      swapped := Pass(a, gap, le);
    }
    NeighboursSorted(a[..], le);
  }
}
