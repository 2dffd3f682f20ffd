/**
 Reconnect backoff: a discrete logistic map with jitter.

 The arithmetic is over reals; IEEE-754 rounding is not modelled.  The truncation of a delay to
 whole nanoseconds is.
 */
module Backoff {
  import opened Reals

  const INITIAL := 1.0   // seconds
  const K := 0.5
  const MAX := 60.0      // seconds
  const RESET_AFTER := 30.0
  const NANOS := 1_000_000_000

  /** The logistic step before jitter. */
  function Grow(x: real): real {
    x * (1.0 + K * (1.0 - x / MAX))
  }

  /** What `mrand.Float64` may return. */
  type Unit = u: real | 0.0 <= u < 1.0 witness 0.0

  function Jitter(u: Unit): real {
    0.8 + 0.4 * u
  }

  function NextBackoff(cur: real, u: Unit): real {
    Grow(cur) * Jitter(u)
  }

  // ---- The map --------------------------------------------------------------------------

  /** The sign of (x - a)(x - b), multiplied out: below both roots, and between them. */
  lemma BelowRoots(a: real, b: real, x: real)
    requires x < a && x < b
    ensures x * x - (a + b) * x + a * b > 0.0
  {
    var p, q := a - x, b - x;
    MulPositive(p, q);
    assert p * q == x * x - (a + b) * x + a * b;
  }

  lemma BetweenRoots(a: real, b: real, x: real)
    requires a <= x <= b
    ensures x * x - (a + b) * x + a * b <= 0.0
    ensures a < x < b ==> x * x - (a + b) * x + a * b < 0.0
  {
    var p, q := x - a, b - x;
    MulLe(0.0, p, q);
    if a < x < b { MulPositive(p, q); }
    assert p * q == -(x * x - (a + b) * x + a * b);
  }

  lemma GrowIs(x: real)
    ensures Grow(x) == 1.5 * x - x * x / 120.0
  {
    var y := x / 60.0;
    assert x * y == x * x / 60.0;
    assert Grow(x) == x * (1.0 + 0.5 * (1.0 - y));
    assert x * (1.0 + 0.5 * (1.0 - y)) == 1.5 * x - 0.5 * (x * y);
  }

  /** The distance to 60 without jitter, and to 80 with the most of it, each as a product. */
  lemma GapsFactor(x: real)
    ensures 60.0 - Grow(x) == (60.0 - x) * (1.0 - x / 120.0)
    ensures 80.0 - 1.2 * Grow(x) == (80.0 - x) * (1.0 - x / 100.0)
  {
    GrowIs(x);
    var y := x / 120.0;
    assert x * y == x * x / 120.0;
    var z := x / 100.0;
    assert x * z == x * x / 100.0;
  }

  /** The jitter is within a fifth of 1, evenly around it. */
  lemma JitterAround1(u: Unit)
    ensures Jitter(u) - 1.0 == 0.4 * (u - 0.5) && -0.2 <= Jitter(u) - 1.0 < 0.2
  {
  }

  lemma JitterScales(g: real, u: Unit)
    requires g > 0.0
    ensures 0.8 * g <= g * Jitter(u) < 1.2 * g
  {
    var c := Jitter(u);
    MulLe(0.8, c, g);
    MulPositive(1.2 - c, g);
  }

  /** 80 - 1.2 f(x) is (80 - x)(100 - x) / 100, so it stays positive; and 0.8 f(x) stays above 1. */
  lemma GrowInterval(x: real)
    requires 1.0 <= x < 80.0
    ensures 1.0 < 0.8 * Grow(x) && 1.2 * Grow(x) < 80.0
  {
    var square, g := x * x, Grow(x);
    GrowIs(x);
    BelowRoots(80.0, 100.0, x);
    BetweenRoots(1.0, 80.0, x);
    assert g == 1.5 * x - square / 120.0;
    assert square - 180.0 * x + 8000.0 > 0.0 >= square - 81.0 * x + 80.0;
  }

  lemma Scaled(x: real, u: Unit)
    requires 1.0 <= x < 80.0
    ensures 1.0 < 0.8 * Grow(x) <= NextBackoff(x, u) < 80.0
  {
    GrowInterval(x);
    JitterScales(Grow(x), u);
  }

  lemma StaysAbove30(x: real, u: Unit)
    requires 30.0 <= x < 80.0
    ensures NextBackoff(x, u) >= 30.0
  {
    Scaled(x, u);
    GrowIs(x);
    BetweenRoots(30.0, 150.0, x);
  }

  lemma RisesBelow30(x: real, u: Unit)
    requires 1.0 <= x < 30.0
    ensures NextBackoff(x, u) > x
  {
    Scaled(x, u);
    GrowIs(x);
    BetweenRoots(0.0, 30.0, x);
  }

  /** The distance below 30 shrinks by a fixed factor in one step. */
  lemma Contracts(x: real, u: Unit)
    requires 1.0 <= x <= 30.0
    ensures 30.0 - NextBackoff(x, u) <= (30.0 - x) * (149.0 / 150.0)
  {
    Scaled(x, u);
    GrowIs(x);
    BetweenRoots(1.0, 30.0, x);
  }

  // ---- The reconnect loop ---------------------------------------------------------------

  /** How one round of the loop ends: with the next round, or with the context cancelled while
      connected or while waiting. */
  datatype End = Completed | StoppedConnected | StoppedWaiting

  /** `up` is how long the connection lasted. */
  datatype Round = Round(up: real, jitter: Unit, end: End)

  /** The `delay` variable when round `k` begins, if it does. */
  function Delay(rounds: seq<Round>, k: nat): real
    requires k <= |rounds|
    decreases k, 0
  {
    if k == 0 then INITIAL else NextBackoff(Used(rounds, k - 1), rounds[k - 1].jitter)
  }

  /** The delay that round `k` waits: reset if the connection stayed up long enough. */
  function Used(rounds: seq<Round>, k: nat): real
    requires k < |rounds|
    decreases k, 1
  {
    if rounds[k].up >= RESET_AFTER then INITIAL else Delay(rounds, k)
  }

  /** The delay of each round from that of the one before: it starts again at one second after a
      connection of 30 seconds or more, and grows by the step otherwise. */
  lemma DelayRecurrence(rounds: seq<Round>, k: nat)
    requires k < |rounds|
    ensures Delay(rounds, 0) == 1.0
    ensures Used(rounds, k) == if rounds[k].up >= 30.0 then 1.0 else Delay(rounds, k)
    ensures Delay(rounds, k + 1) ==
              (if rounds[k].up >= 30.0 then Grow(1.0) else Grow(Delay(rounds, k))) * (0.8 + 0.4 * rounds[k].jitter)
  {
  }

  /** `time.Duration(delay * float64(time.Second))`. */
  function Wait(delay: real): int {
    (delay * (NANOS as real)).Floor
  }

  function Sum(waits: seq<int>): int {
    if waits == [] then 0 else Sum(waits[..|waits| - 1]) + waits[|waits| - 1]
  }

  lemma {:induction false} SumAtLeast(waits: seq<int>, least: int)
    requires forall i :: 0 <= i < |waits| ==> least <= waits[i]
    ensures Sum(waits) >= |waits| * least
  {
    if waits != [] {
      SumAtLeast(waits[..|waits| - 1], least);
    }
  }

  /** Whatever the jitter and whenever the resets, the delay lies in [1, 80). */
  lemma {:induction false} DelayInInterval(rounds: seq<Round>, k: nat)
    requires k <= |rounds|
    ensures 1.0 <= Delay(rounds, k) < 80.0
    ensures k < |rounds| ==> 1.0 <= Used(rounds, k) < 80.0
  {
    if k > 0 {
      DelayInInterval(rounds, k - 1);
      Scaled(Used(rounds, k - 1), rounds[k - 1].jitter);
    }
  }

  ghost predicate NoReset(rounds: seq<Round>, j: nat, k: nat)
    requires j <= k <= |rounds|
  {
    forall i :: j <= i < k ==> rounds[i].up < RESET_AFTER
  }

  /** Once the delay is 30 or more it stays so until a reset. */
  lemma {:induction false} StaysHigh(rounds: seq<Round>, j: nat, k: nat)
    requires j <= k <= |rounds| && NoReset(rounds, j, k) && Delay(rounds, j) >= 30.0
    ensures Delay(rounds, k) >= 30.0
  {
    if j < k {
      StaysHigh(rounds, j, k - 1);
      DelayInInterval(rounds, k - 1);
      StaysAbove30(Delay(rounds, k - 1), rounds[k - 1].jitter);
    }
  }

  function Pow(r: real, k: nat): real {
    if k == 0 then 1.0 else r * Pow(r, k - 1)
  }

  lemma {:induction false} PowPositive(r: real, k: nat)
    requires r > 0.0
    ensures Pow(r, k) > 0.0
  {
    if k > 0 {
      PowPositive(r, k - 1);
      MulPositive(r, Pow(r, k - 1));
    }
  }

  /** After k rounds without a reset the delay is within 29 * (149/150)^k of 30, or above 30. */
  lemma {:induction false} ConvergesTo30(rounds: seq<Round>, j: nat, k: nat)
    requires j + k <= |rounds| && NoReset(rounds, j, j + k)
    ensures 30.0 - Delay(rounds, j + k) <= 29.0 * Pow(149.0 / 150.0, k)
  {
    DelayInInterval(rounds, j + k);
    PowPositive(149.0 / 150.0, k);
    if k > 0 {
      ConvergesTo30(rounds, j, k - 1);
      var x, u := Delay(rounds, j + k - 1), rounds[j + k - 1].jitter;
      DelayInInterval(rounds, j + k - 1);
      if x >= 30.0 {
        StaysAbove30(x, u);
      } else {
        Contracts(x, u);
        MulLe(30.0 - x, 29.0 * Pow(149.0 / 150.0, k - 1), 149.0 / 150.0);
      }
    }
  }

  // ---- Without jitter ---------------------------------------------------------------------

  function GrowTimes(x: real, k: nat): real {
    if k == 0 then x else Grow(GrowTimes(x, k - 1))
  }

  /** Without jitter the delay rises at every step and never reaches the cap. */
  lemma RisesTowardCap(x: real)
    requires 1.0 <= x < MAX
    ensures x < Grow(x) < MAX && MAX - Grow(x) <= (MAX - x) * (119.0 / 120.0)
    ensures NextBackoff(x, 0.5) == Grow(x)
  {
    GrowIs(x);
    BelowRoots(60.0, 120.0, x);
    BetweenRoots(0.0, 60.0, x);
    BetweenRoots(1.0, 60.0, x);
    assert Jitter(0.5) == 1.0;
  }

  lemma {:induction false} ConvergesToCap(x: real, k: nat)
    requires 1.0 <= x < MAX
    ensures 1.0 <= GrowTimes(x, k) < MAX
    ensures MAX - GrowTimes(x, k) <= (MAX - x) * Pow(119.0 / 120.0, k)
  {
    if k > 0 {
      ConvergesToCap(x, k - 1);
      RisesTowardCap(GrowTimes(x, k - 1));
      MulLe(MAX - GrowTimes(x, k - 1), (MAX - x) * Pow(119.0 / 120.0, k - 1), 119.0 / 120.0);
    }
  }

  // ---- With jitter the cap is passed, and 80 is the least bound ------------------------------

  /** The jitter whose fixed point is `t`. */
  lemma FixedPoint(t: real) returns (u: Unit)
    requires 30.0 <= t < 80.0
    ensures Jitter(u) * (180.0 - t) == 120.0
  {
    var w := 180.0 - t;
    var c := 120.0 / w;
    assert c * w == 120.0;
    if c < 0.8 { MulPositive(0.8 - c, w); }
    if c >= 1.2 { MulLe(1.2, c, w); }
    u := (c - 0.8) / 0.4;
    assert Jitter(u) == c;
  }

  /** With that jitter a delay below `b` grows by at least (t - b) / 150. */
  lemma Climbs(x: real, b: real, t: real, u: Unit)
    requires 1.0 <= x <= b < t < 80.0 && Jitter(u) * (180.0 - t) == 120.0
    ensures NextBackoff(x, u) >= x + (t - b) / 150.0
  {
    var c := Jitter(u);
    var d := c * (t - x);
    ClimbAlgebra(c, t, x, d);
    MulLe(0.8, c, t - x);
    StepAtLeast(x, d, t - b);
  }

  lemma StepAtLeast(x: real, d: real, gap: real)
    requires x >= 1.0 && d >= 0.8 * gap > 0.0
    ensures x * d / 120.0 >= gap / 150.0
  {
    MulLe(1.0, x, d);
  }

  lemma ClimbAlgebra(c: real, t: real, x: real, d: real)
    requires c * (180.0 - t) == 120.0 && d == c * (t - x)
    ensures Grow(x) * c - x == x * d / 120.0
  {
    GrowIs(x);
    assert c * t == 180.0 * c - 120.0;
    assert d == 180.0 * c - 120.0 - c * x;
    assert x * (180.0 * c - 120.0 - c * x) == 180.0 * (x * c) - 120.0 * x - x * x * c;
  }

  function Rounds(us: seq<Unit>): seq<Round> {
    seq(|us|, i requires 0 <= i < |us| => Round(0.0, us[i], Completed))
  }

  lemma OneMoreRound(us: seq<Unit>, u: Unit)
    ensures Delay(Rounds(us + [u]), |us| + 1) == NextBackoff(Delay(Rounds(us), |us|), u)
  {
    DelayOfPrefix(Rounds(us), Rounds(us + [u]), |us|);
  }

  /** For every bound below 80, and so also for the stated cap of 60, some run of short-lived
      connections drives the delay above it. */
  lemma EightyIsTight(b: real) returns (us: seq<Unit>)
    requires b < 80.0
    ensures Delay(Rounds(us), |us|) > b
  {
    var b' := if b < 30.0 then 30.0 else b;
    var t := (b' + 80.0) / 2.0;
    var u := FixedPoint(t);
    us := [];
    while Delay(Rounds(us), |us|) <= b'
      decreases ((80.0 - Delay(Rounds(us), |us|)) * 150.0 / (t - b')).Floor
    {
      var x := Delay(Rounds(us), |us|);
      DelayInInterval(Rounds(us), |us|);
      Climbs(x, b', t, u);
      OneMoreRound(us, u);
      OneLess(80.0 - x, 80.0 - NextBackoff(x, u), t - b');
      us := us + [u];
    }
  }

  lemma OneLess(a: real, b: real, d: real)
    requires d > 0.0 && b <= a - d / 150.0
    ensures (b * 150.0 / d).Floor < (a * 150.0 / d).Floor
  {
    assert a * 150.0 / d - b * 150.0 / d == (a - b) * 150.0 / d;
    MulLe(1.0, (a - b) * 150.0 / d, d);
  }

  lemma {:induction false} DelayOfPrefix(a: seq<Round>, b: seq<Round>, k: nat)
    requires k <= |a| && a <= b
    ensures Delay(a, k) == Delay(b, k)
  {
    if k > 0 { DelayOfPrefix(a, b, k - 1); }
  }

  /** The delay of the round after a reset. */
  lemma AfterReset(rounds: seq<Round>, k: nat)
    requires 0 < k < |rounds| && rounds[k - 1].up >= RESET_AFTER
    ensures 1_193_333_333 <= Wait(Delay(rounds, k)) < 1_790_000_000
  {
    GrowIs(1.0);
    JitterScales(Grow(1.0), rounds[k - 1].jitter);
  }

  /** What resets mean for the waits. */
  lemma ResetFacts(rounds: seq<Round>, waits: seq<int>)
    requires |waits| <= |rounds| && forall k :: 0 <= k < |waits| ==> waits[k] == Wait(Used(rounds, k))
    ensures forall k :: 0 <= k < |waits| && rounds[k].up >= 30.0 ==> waits[k] == 1_000_000_000
    ensures forall k :: 0 <= k < |waits| && rounds[k].up < 30.0 ==>
              waits[k] == (Delay(rounds, k) * 1_000_000_000.0).Floor
    ensures forall k :: 0 < k < |waits| && rounds[k - 1].up >= 30.0 && rounds[k].up < 30.0 ==>
              1_193_333_333 <= waits[k] < 1_790_000_000
    ensures |waits| > 0 ==> waits[0] == 1_000_000_000
  {
    forall k | 0 < k < |waits| && rounds[k - 1].up >= 30.0
      ensures 1_193_333_333 <= Wait(Delay(rounds, k)) < 1_790_000_000 {
      AfterReset(rounds, k);
    }
  }

  // ---- The loop itself ------------------------------------------------------------------

  lemma WaitInInterval(x: real)
    requires 1.0 <= x < 80.0
    ensures NANOS <= Wait(x) < 80 * NANOS
  {
  }

  lemma WaitsInInterval(rounds: seq<Round>, waits: seq<int>)
    requires |waits| <= |rounds| && forall k :: 0 <= k < |waits| ==> waits[k] == Wait(Used(rounds, k))
    ensures (forall w <- waits :: NANOS <= w < 80 * NANOS) && Sum(waits) >= |waits| * NANOS
  {
    forall k | 0 <= k < |waits| ensures NANOS <= waits[k] < 80 * NANOS {
      DelayInInterval(rounds, k);
      WaitInInterval(Used(rounds, k));
    }
    SumAtLeast(waits, NANOS);
  }

  /** runCoordinator, given what each round brings.  Returns the completed waits, in
      nanoseconds, and the final `delay`. */
  method RunCoordinator(rounds: seq<Round>) returns (waits: seq<int>, delay: real)
    ensures |waits| <= |rounds|
    ensures forall k :: 0 <= k < |waits| ==> rounds[k].end.Completed? && waits[k] == Wait(Used(rounds, k))
    ensures |waits| == |rounds| || !rounds[|waits|].end.Completed?
    ensures 1.0 <= delay < 80.0 && (|waits| == |rounds| ==> delay == Delay(rounds, |rounds|))
    ensures forall w <- waits :: NANOS <= w < 80 * NANOS
    ensures Sum(waits) >= |waits| * NANOS
    ensures forall k :: 0 <= k < |waits| && rounds[k].up >= 30.0 ==> waits[k] == 1_000_000_000
    ensures forall k :: 0 <= k < |waits| && rounds[k].up < 30.0 ==>
              waits[k] == (Delay(rounds, k) * 1_000_000_000.0).Floor
    ensures forall k :: 0 < k < |waits| && rounds[k - 1].up >= 30.0 && rounds[k].up < 30.0 ==>
              1_193_333_333 <= waits[k] < 1_790_000_000
    ensures |waits| > 0 ==> waits[0] == 1_000_000_000
  {
    waits, delay := Loop(rounds);
    WaitsInInterval(rounds, waits);
    ResetFacts(rounds, waits);
  }

  /** The loop of runCoordinator. */
  method Loop(rounds: seq<Round>) returns (waits: seq<int>, delay: real)
    ensures |waits| <= |rounds|
    ensures forall k :: 0 <= k < |waits| ==> rounds[k].end.Completed? && waits[k] == Wait(Used(rounds, k))
    ensures |waits| == |rounds| || !rounds[|waits|].end.Completed?
    ensures 1.0 <= delay < 80.0 && (|waits| == |rounds| ==> delay == Delay(rounds, |rounds|))
  {
    delay := INITIAL;
    waits := [];
    for k := 0 to |rounds|
      invariant |waits| == k && delay == Delay(rounds, k)
      invariant forall i :: 0 <= i < k ==> rounds[i].end.Completed? && waits[i] == Wait(Used(rounds, i))
    {
      DelayInInterval(rounds, k);
      if rounds[k].end.StoppedConnected? { return; }
      if rounds[k].up >= RESET_AFTER { delay := INITIAL; }
      var wait := Wait(delay);
      delay := NextBackoff(delay, rounds[k].jitter);
      Scaled(Used(rounds, k), rounds[k].jitter);
      if rounds[k].end.StoppedWaiting? { return; }
      waits := waits + [wait];
    }
    DelayInInterval(rounds, |rounds|);
  }
}
