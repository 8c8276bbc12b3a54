/** The timer list of kernel/timecore.c: sleepers are kept as differences. Each interval holds the ticks to wait
    after the interval before it, and the queue of the threads it wakes. */
module DeltaList {

  datatype Interval = Interval(ticks: nat, queue: int)

  /** Ticks left before interval i is due: the sum of the differences up to it. */
  function Due(f: seq<Interval>, i: nat): nat
    requires i < |f|
  {
    f[0].ticks + if i == 0 then 0 else Due(f[1..], i - 1)
  }

  /** Only the first interval may be due at once. */
  ghost predicate Ordered(f: seq<Interval>) {
    forall i :: 0 < i < |f| ==> f[i].ticks > 0
  }

  lemma {:induction false} DueIncreases(f: seq<Interval>, i: nat, j: nat)
    requires Ordered(f) && i < j < |f|
    ensures Due(f, i) < Due(f, j)
    decreases i
  {
    if i > 0 {
      DueIncreases(f[1..], i - 1, j - 1);
    }
  }

  /** The queues of the list, in order. */
  function Ids(f: seq<Interval>): (r: seq<int>)
    ensures |r| == |f|
  {
    if f == [] then [] else [f[0].queue] + Ids(f[1..])
  }

  lemma {:induction false} IdAt(f: seq<Interval>, i: nat)
    requires i < |f|
    ensures Ids(f)[i] == f[i].queue
  {
    if i > 0 {
      IdAt(f[1..], i - 1);
    }
  }

  // ---- tsleep

  /** The list and the queue to wait in, for a sleep of `delay` ticks; a new interval is called `id`. */
  function Insert(f: seq<Interval>, delay: nat, id: int): (r: (seq<Interval>, int))
    ensures |f| <= |r.0| <= |f| + 1
  {
    if f == [] then ([Interval(delay, id)], id)
    else if delay < f[0].ticks then ([Interval(delay, id), Interval(f[0].ticks - delay, f[0].queue)] + f[1..], id)
    else if delay == f[0].ticks then (f, f[0].queue)
    else
      var (rest, q) := Insert(f[1..], delay - f[0].ticks, id);
      ([f[0]] + rest, q)
  }

  /** The position of a sleep of `delay` ticks: behind the intervals that are due earlier. */
  function Place(f: seq<Interval>, delay: nat): (j: nat)
    ensures j <= |f|
  {
    if f == [] || delay <= f[0].ticks then 0 else 1 + Place(f[1..], delay - f[0].ticks)
  }

  /** The sleeper joins an interval due at that very time. */
  predicate Joins(f: seq<Interval>, delay: nat) {
    var j := Place(f, delay);
    j < |f| && Due(f, j) == delay
  }

  lemma {:induction false} PlaceMeaning(f: seq<Interval>, delay: nat)
    ensures forall i :: 0 <= i < Place(f, delay) ==> Due(f, i) < delay
    ensures Place(f, delay) < |f| ==> Due(f, Place(f, delay)) >= delay
  {
    if !(f == [] || delay <= f[0].ticks) {
      PlaceMeaning(f[1..], delay - f[0].ticks);
    }
  }

  /** Where interval i ends up. */
  function Moved(f: seq<Interval>, delay: nat, i: nat): nat {
    if Joins(f, delay) || i < Place(f, delay) then i else i + 1
  }

  /** Past an interval that is due earlier, the search goes on with what is left of the delay. */
  lemma Further(f: seq<Interval>, delay: nat, id: int)
    requires f != [] && delay > f[0].ticks
    ensures var rest, d := f[1..], delay - f[0].ticks;
      && Insert(f, delay, id) == ([f[0]] + Insert(rest, d, id).0, Insert(rest, d, id).1)
      && Place(f, delay) == 1 + Place(rest, d) && (Joins(f, delay) <==> Joins(rest, d))
  {
  }

  lemma Cons(x: Interval, g: seq<Interval>)
    ensures Ids([x] + g) == [x.queue] + Ids(g)
    ensures forall i: nat :: i < |g| ==> Due([x] + g, i + 1) == x.ticks + Due(g, i)
  {
    assert ([x] + g)[1..] == g;
  }

  /** tsleep gives the caller exactly `delay`: in the interval due at that time if there is one, in a new one
      otherwise. */
  lemma {:induction false} InsertGivesDelay(f: seq<Interval>, delay: nat, id: int)
    ensures var (g, q) := Insert(f, delay, id);
      var j := Place(f, delay);
      && j < |g| && g[j].queue == q && Due(g, j) == delay
      && (if Joins(f, delay) then g == f else |g| == |f| + 1 && q == id)
  {
    if f == [] || delay <= f[0].ticks {
      GivesDelayAtFront(f, delay, id);
    } else {
      hide Insert, Place, Joins, Due;
      var d := delay - f[0].ticks;
      Further(f, delay, id);
      InsertGivesDelay(f[1..], d, id);
      Cons(f[0], Insert(f[1..], d, id).0);
    }
  }

  lemma GivesDelayAtFront(f: seq<Interval>, delay: nat, id: int)
    requires f == [] || delay <= f[0].ticks
    ensures var (g, q) := Insert(f, delay, id);
      && Place(f, delay) == 0 && 0 < |g| && g[0].queue == q && Due(g, 0) == delay
      && (if Joins(f, delay) then g == f else |g| == |f| + 1 && q == id)
  {
  }

  /** tsleep leaves every other interval's queue and remaining time as they were. */
  lemma {:induction false} InsertKeepsOthers(f: seq<Interval>, delay: nat, id: int, i: nat)
    requires i < |f|
    ensures var (g, q) := Insert(f, delay, id);
      var k := Moved(f, delay, i);
      k < |g| && g[k].queue == f[i].queue && Due(g, k) == Due(f, i)
    decreases |f|
  {
    hide Insert, Place, Joins, Due;
    if delay <= f[0].ticks {
      FrontKeepsOthers(f, delay, id, i);
    } else {
      var d := delay - f[0].ticks;
      var rest := Insert(f[1..], d, id).0;
      Further(f, delay, id);
      Cons(f[0], f[1..]);
      Cons(f[0], rest);
      assert [f[0]] + f[1..] == f;
      if i > 0 {
        InsertKeepsOthers(f[1..], d, id, i - 1);
      } else {
        DueFirst(f);
        DueFirst([f[0]] + rest);
      }
    }
  }

  lemma DueFirst(f: seq<Interval>)
    requires f != []
    ensures Due(f, 0) == f[0].ticks
  {
  }

  lemma FrontKeepsOthers(f: seq<Interval>, delay: nat, id: int, i: nat)
    requires i < |f| && delay <= f[0].ticks
    ensures var g := Insert(f, delay, id).0;
      var k := Moved(f, delay, i);
      k < |g| && g[k].queue == f[i].queue && Due(g, k) == Due(f, i)
  {
    if delay < f[0].ticks {
      var g := Insert(f, delay, id).0;
      assert g[1..][1..] == f[1..];
    }
  }

  lemma {:induction false} InsertIds(f: seq<Interval>, delay: nat, id: int)
    ensures var g, j := Insert(f, delay, id).0, Place(f, delay);
      if Joins(f, delay) then g == f else Ids(g) == Ids(f)[..j] + [id] + Ids(f)[j..]
  {
    hide Insert, Place, Joins, Due, Ids;
    if f == [] || delay <= f[0].ticks {
      IdsAtFront(f, delay, id);
    } else {
      var d := delay - f[0].ticks;
      var j, y := Place(f[1..], d), Ids(f[1..]);
      InsertIds(f[1..], d, id);
      Further(f, delay, id);
      Cons(f[0], f[1..]);
      Cons(f[0], Insert(f[1..], d, id).0);
      assert [f[0]] + f[1..] == f;
      ConsInsert(f[0].queue, y, j, id);
    }
  }

  lemma ConsInsert(x: int, y: seq<int>, j: nat, id: int)
    requires j <= |y|
    ensures [x] + (y[..j] + [id] + y[j..]) == ([x] + y)[..j + 1] + [id] + ([x] + y)[j + 1..]
  {
  }

  lemma IdsAtFront(f: seq<Interval>, delay: nat, id: int)
    requires f == [] || delay <= f[0].ticks
    ensures var g := Insert(f, delay, id).0;
      Place(f, delay) == 0 && if Joins(f, delay) then g == f else Ids(g) == Ids(f)[..0] + [id] + Ids(f)[0..]
  {
    if f != [] && delay < f[0].ticks {
      var g := Insert(f, delay, id).0;
      assert g[1..][1..] == f[1..];
    }
  }

  lemma {:induction false} InsertKeepsOrdered(f: seq<Interval>, delay: nat, id: int)
    requires Ordered(f)
    ensures Ordered(Insert(f, delay, id).0)
    ensures delay > 0 && (f == [] || f[0].ticks > 0) ==> Insert(f, delay, id).0[0].ticks > 0
  {
    if f != [] && delay > f[0].ticks {
      InsertKeepsOrdered(f[1..], delay - f[0].ticks, id);
    }
  }

  /** The search has come to position i with d ticks of the delay left. */
  ghost predicate Walked(f: seq<Interval>, delay: nat, id: int, i: nat, d: nat) {
    i <= |f| && Insert(f, delay, id) == (f[..i] + Insert(f[i..], d, id).0, Insert(f[i..], d, id).1)
  }

  lemma WalkStart(f: seq<Interval>, delay: nat, id: int)
    ensures Walked(f, delay, id, 0, delay)
  {
    hide Insert;
    assert f[..0] == [] && f[0..] == f;
    assert [] + Insert(f, delay, id).0 == Insert(f, delay, id).0;
  }

  lemma WalkStep(f: seq<Interval>, delay: nat, id: int, i: nat, d: nat)
    requires Walked(f, delay, id, i, d) && i < |f| && d > f[i].ticks
    ensures Walked(f, delay, id, i + 1, d - f[i].ticks)
  {
    hide Insert, Place, Joins;
    var g := Insert(f[i + 1..], d - f[i].ticks, id).0;
    assert f[i..][1..] == f[i + 1..];
    Further(f[i..], d, id);
    assert f[..i] + ([f[i]] + g) == f[..i + 1] + g;
  }

  /** Where the search stops: at an interval due then, before one due later, or at the end. */
  lemma WalkEnd(f: seq<Interval>, delay: nat, id: int, i: nat, d: nat)
    requires Walked(f, delay, id, i, d) && (i < |f| ==> d <= f[i].ticks)
    ensures Insert(f, delay, id) ==
      if i == |f| then (f + [Interval(d, id)], id)
      else if d == f[i].ticks then (f, f[i].queue)
      else (f[..i] + [Interval(d, id), Interval(f[i].ticks - d, f[i].queue)] + f[i + 1..], id)
  {
    assert f[..|f|] == f && f == f[..i] + f[i..];
    if i < |f| {
      var two := [Interval(d, id), Interval(f[i].ticks - d, f[i].queue)];
      assert f[i..][1..] == f[i + 1..];
      assert f[..i] + (two + f[i + 1..]) == f[..i] + two + f[i + 1..];
    }
  }

  // ---- update_timers

  /** The first interval counts down; at zero it is taken off the list. */
  function Countdown(f: seq<Interval>): seq<Interval> {
    if f == [] then f
    else if f[0].ticks == 0 then f[1..]
    else [Interval(f[0].ticks - 1, f[0].queue)] + f[1..]
  }

  /** Every interval comes one tick closer, unless one is released: then the others keep their time. */
  lemma CountdownDue(f: seq<Interval>, i: nat)
    requires i < |f|
    ensures var g := Countdown(f);
      if f[0].ticks > 0 then |g| == |f| && g[i].queue == f[i].queue && Due(g, i) == Due(f, i) - 1
      else i > 0 ==> g[i - 1] == f[i] && Due(g, i - 1) == Due(f, i)
  {
    assert f[0].ticks > 0 ==> Countdown(f)[1..] == f[1..];
  }
}
