/**
 The SDP exchange rate: a decaying accumulator that stands for the whole history of exchanges.

 Times are real numbers of seconds and the arithmetic is over reals.  The exponential is a
 parameter of which only three laws are used.
 */
module Ewma {
  import opened Options
  import opened Reals

  const TAU := 21600.0   // 6 hours

  ghost predicate Adds(exp: real -> real, a: real, b: real) {
    exp(a + b) == exp(a) * exp(b)
  }

  ghost predicate AboveTangent(exp: real -> real, x: real) {
    exp(x) >= 1.0 + x
  }

  ghost predicate IsExp(exp: real -> real) {
    && exp(0.0) == 1.0
    && (forall a: real, b: real :: Adds(exp, a, b))
    && (forall x: real :: AboveTangent(exp, x))
  }

  lemma ExpPositive(exp: real -> real, x: real)
    requires IsExp(exp)
    ensures exp(x) > 0.0
  {
    assert Adds(exp, x / 2.0, x / 2.0);
    assert Adds(exp, x, -x);
    assert x + -x == 0.0 && x / 2.0 + x / 2.0 == x;
    Square(exp(x / 2.0));
  }

  lemma Square(a: real)
    ensures a * a >= 0.0
  {
  }

  lemma ExpMonotone(exp: real -> real, a: real, b: real)
    requires IsExp(exp) && a <= b
    ensures exp(a) <= exp(b)
  {
    ExpPositive(exp, a);
    assert Adds(exp, a, b - a) && AboveTangent(exp, b - a);
    assert a + (b - a) == b;
    MulLe(1.0, exp(b - a), exp(a));
  }

  // ---- The history ----------------------------------------------------------------------

  /** The weight at time `t` of the exchanges at times `events`: each counts exp(-(age) / tau). */
  function Weight(exp: real -> real, events: seq<real>, t: real): real {
    if events == [] then 0.0
    else Weight(exp, events[..|events| - 1], t) + exp(-(t - events[|events| - 1]) / TAU)
  }

  /** Moving the reference time from `t` to `u`, forwards or backwards, rescales the weight. */
  lemma {:induction false} WeightShifts(exp: real -> real, events: seq<real>, t: real, u: real)
    requires IsExp(exp)
    ensures Weight(exp, events, u) == Weight(exp, events, t) * exp(-(u - t) / TAU)
  {
    if events != [] {
      var e := events[|events| - 1];
      WeightShifts(exp, events[..|events| - 1], t, u);
      assert Adds(exp, -(t - e) / TAU, -(u - t) / TAU);
      assert -(t - e) / TAU + -(u - t) / TAU == -(u - e) / TAU;
    }
  }

  lemma {:induction false} WeightNonNegative(exp: real -> real, events: seq<real>, t: real)
    requires IsExp(exp)
    ensures Weight(exp, events, t) >= 0.0
  {
    if events != [] {
      WeightNonNegative(exp, events[..|events| - 1], t);
      ExpPositive(exp, -(t - events[|events| - 1]) / TAU);
    }
  }

  /** The weight does not depend on the order of the events. */
  lemma {:induction false} WeightUnordered(exp: real -> real, a: seq<real>, b: seq<real>, t: real)
    requires multiset(a) == multiset(b)
    ensures Weight(exp, a, t) == Weight(exp, b, t)
    decreases |a|
  {
    assert |multiset(a)| == |a| && |multiset(b)| == |b|;
    if a != [] {
      var k := TakeOut(a, b);
      WeightUnordered(exp, a[..|a| - 1], b[..k] + b[k + 1..], t);
      WeightWithout(exp, b, k, t);
    }
  }

  /** Where the last event of `a` is in `b`, and that the others agree too. */
  lemma TakeOut(a: seq<real>, b: seq<real>) returns (k: nat)
    requires multiset(a) == multiset(b) && a != []
    ensures k < |b| && b[k] == a[|a| - 1]
    ensures multiset(a[..|a| - 1]) == multiset(b[..k] + b[k + 1..])
  {
    var n := |a| - 1;
    assert a[n] in multiset(a) && a[n] in multiset(b);
    assert a[n] in b;
    k :| k < |b| && b[k] == a[n];
    assert a == a[..n] + [a[n]] && b == b[..k] + [b[k]] + b[k + 1..];
    Cancel(multiset(a[..n]), multiset(b[..k] + b[k + 1..]), a[n]);
  }

  lemma Cancel(m: multiset<real>, n: multiset<real>, x: real)
    requires m + multiset{x} == n + multiset{x}
    ensures m == n
  {
    assert m == (m + multiset{x}) - multiset{x} && n == (n + multiset{x}) - multiset{x};
  }

  /** Taking one event out of the middle. */
  lemma {:induction false} WeightWithout(exp: real -> real, b: seq<real>, k: nat, t: real)
    requires k < |b|
    ensures Weight(exp, b, t) == Weight(exp, b[..k] + b[k + 1..], t) + exp(-(t - b[k]) / TAU)
    decreases |b|
  {
    var n := |b| - 1;
    if k == n {
      assert b[..k] + b[k + 1..] == b[..n];
    } else {
      WeightWithout(exp, b[..n], k, t);
      LastOfRest(b, k);
    }
  }

  lemma LastOfRest(b: seq<real>, k: nat)
    requires k + 1 < |b|
    ensures var n, rest := |b| - 1, b[..k] + b[k + 1..];
            rest != [] && rest[|rest| - 1] == b[n] && rest[..|rest| - 1] == b[..n][..k] + b[..n][k + 1..]
  {
  }

  /** One more event, given the weight at the time `t` of another. */
  lemma WeightGrows(exp: real -> real, events: seq<real>, t: real, now: real)
    requires IsExp(exp)
    ensures Weight(exp, events + [now], now) == Weight(exp, events, t) * exp(-(now - t) / TAU) + 1.0
  {
    WeightShifts(exp, events, t, now);
    assert (events + [now])[..|events|] == events;
    assert -(now - now) / TAU == 0.0;
  }

  // ---- The tracker ----------------------------------------------------------------------

  class SdpTracker {
    var sum: real
    var last: Option<real>   // when the last exchange was recorded

    ghost var events: seq<real>

    ghost predicate Valid(exp: real -> real)
      reads this
    {
      && last.Some? == (events != [])
      && (events == [] ==> sum == 0.0)
      && (events != [] ==> last.value == events[|events| - 1] && sum == Weight(exp, events, last.value))
    }

    constructor (ghost exp: real -> real)
      ensures Valid(exp) && events == []
    {
      sum, last, events := 0.0, None, [];
    }

    /** `now` was read before the lock was taken, so it may lie before `last`. */
    method Record(exp: real -> real, now: real)
      requires IsExp(exp) && Valid(exp)
      modifies this
      ensures Valid(exp) && events == old(events) + [now]
    {
      WeightGrows(exp, events, if last.Some? then last.value else now, now);
      ghost var weight := Weight(exp, events + [now], now);
      if last.Some? {
        var dt := now - last.value;
        sum := sum * exp(-dt / TAU);
        assert sum == weight - 1.0;
      }
      sum := sum + 1.0;
      assert sum == weight;
      last := Some(now);
      events := events + [now];
    }

    /** The rate per hour stands for the whole history, whatever the order of the records. */
    method PerHour(exp: real -> real, now: real) returns (r: real)
      requires IsExp(exp) && Valid(exp)
      ensures r == (3600.0 / TAU) * Weight(exp, events, now)
    {
      if last.None? { return 0.0; }
      var dt := now - last.value;
      WeightShifts(exp, events, last.value, now);
      r := sum * exp(-dt / TAU) * 3600.0 / TAU;
    }
  }

  /** One exchange decays with a time constant of six hours, and the weights of many add up. */
  lemma WeightOfOne(exp: real -> real, e: real, t: real)
    ensures Weight(exp, [e], t) == exp(-(t - e) / 21600.0)
  {
    assert [e][..0] == [];
  }

  lemma {:induction false} WeightAdds(exp: real -> real, a: seq<real>, b: seq<real>, t: real)
    ensures Weight(exp, a + b, t) == Weight(exp, a, t) + Weight(exp, b, t)
  {
    if b == [] {
      assert a + b == a;
    } else {
      WeightAdds(exp, a, b[..|b| - 1], t);
      assert (a + b)[..|a + b| - 1] == a + b[..|b| - 1];
    }
  }

  /** Right after the first exchange the rate is a sixth of an exchange per hour. */
  lemma RateOfOne(exp: real -> real, e: real)
    requires IsExp(exp)
    ensures Rate(exp, [e], e) == 1.0 / 6.0
  {
    WeightOfOne(exp, e, e);
    assert -(e - e) / 21600.0 == 0.0;
  }

  // ---- Bounds on the rate -----------------------------------------------------------------

  function Rate(exp: real -> real, events: seq<real>, t: real): real {
    (3600.0 / TAU) * Weight(exp, events, t)
  }

  /** The exchanges are in time order, at least `d` apart. */
  ghost predicate Spaced(events: seq<real>, d: real) {
    forall i :: 0 < i < |events| ==> events[i] - events[i - 1] >= d
  }

  lemma Inverse(exp: real -> real, x: real)
    requires IsExp(exp) && x > 0.0
    ensures 0.0 < exp(-x) && exp(-x) * (1.0 + x) <= 1.0
  {
    ExpPositive(exp, -x);
    assert Adds(exp, x, -x) && x + -x == 0.0 && AboveTangent(exp, x);
    MulLe(1.0 + x, exp(x), exp(-x));
  }

  /** Right after the last of any number of exchanges at least `d` apart, the weight is at most
      1 + tau / d. */
  lemma {:induction false} WeightBound(exp: real -> real, events: seq<real>, d: real)
    requires IsExp(exp) && d > 0.0 && Spaced(events, d) && events != []
    ensures Weight(exp, events, events[|events| - 1]) <= 1.0 + TAU / d
  {
    var n := |events| - 1;
    assert events[..n] + [events[n]] == events;
    if n == 0 {
      assert events == [events[0]];
      WeightOfOne(exp, events[0], events[0]);
      assert -(events[0] - events[0]) / 21600.0 == 0.0;
      Reciprocal(d);
    } else {
      WeightBound(exp, events[..n], d);
      NextBound(exp, events[..n], events[n - 1], events[n], d);
    }
  }

  lemma NextBound(exp: real -> real, before: seq<real>, prev: real, now: real, d: real)
    requires IsExp(exp) && d > 0.0 && now - prev >= d && Weight(exp, before, prev) <= 1.0 + TAU / d
    ensures Weight(exp, before + [now], now) <= 1.0 + TAU / d
  {
    WeightGrows(exp, before, prev, now);
    var f := exp(-(now - prev) / TAU);
    Decay(exp, now - prev, d);
    Reciprocal(d);
    BoundStep(Weight(exp, before, prev), f, exp(-(d / TAU)), d / TAU, TAU / d);
  }

  /** At least `d` seconds decay by at least a factor of 1 + d / tau. */
  lemma Decay(exp: real -> real, age: real, d: real)
    requires IsExp(exp) && age >= d > 0.0
    ensures 0.0 < exp(-age / TAU) <= exp(-(d / TAU)) && exp(-(d / TAU)) * (1.0 + d / TAU) <= 1.0
  {
    ExpMonotone(exp, -age / TAU, -(d / TAU));
    ExpPositive(exp, -age / TAU);
    Inverse(exp, d / TAU);
  }

  lemma Reciprocal(d: real)
    requires d > 0.0
    ensures d / TAU > 0.0 && TAU / d > 0.0 && (d / TAU) * (TAU / d) == 1.0
  {
    var y := TAU / d;
    assert y * d == TAU;
  }

  lemma BoundStep(w: real, f: real, g: real, x: real, y: real)
    requires w <= 1.0 + y && 0.0 < f <= g && g * (1.0 + x) <= 1.0 && x > 0.0 && y > 0.0 && x * y == 1.0
    ensures w * f <= y
  {
    MulLe(w, 1.0 + y, f);
    MulLe(f, g, 1.0 + y);
    assert (1.0 + y) * f == f * (1.0 + y);
    assert (1.0 + x) * y == 1.0 + y;
    assert g * (1.0 + y) == (g * (1.0 + x)) * y;
    MulLe(g * (1.0 + x), 1.0, y);
  }

  /** Between records the rate does not increase. */
  lemma RateDecays(exp: real -> real, events: seq<real>, t: real, u: real)
    requires IsExp(exp) && t <= u
    ensures Rate(exp, events, u) <= Rate(exp, events, t)
  {
    WeightShifts(exp, events, t, u);
    WeightNonNegative(exp, events, t);
    ExpMonotone(exp, -(u - t) / TAU, 0.0);
    MulLe(exp(-(u - t) / TAU), 1.0, Weight(exp, events, t));
  }

  /** Asked at or after the last exchange, the rate per hour never exceeds the true one,
      3600 / d, by more than 1/6. */
  lemma RateBound(exp: real -> real, events: seq<real>, d: real, now: real)
    requires IsExp(exp) && d > 0.0 && Spaced(events, d) && (events != [] ==> now >= events[|events| - 1])
    ensures Rate(exp, events, now) <= 3600.0 / d + 1.0 / 6.0
  {
    if events != [] {
      WeightBound(exp, events, d);
      RateDecays(exp, events, events[|events| - 1], now);
      assert (3600.0 / TAU) * (TAU / d) == 3600.0 / d;
    }
  }
}
