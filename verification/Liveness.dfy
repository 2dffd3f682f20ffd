/**
 Timing of liveness: the prune loop's 30-second ticks, the read deadline, and a node's pings.

 Time is a real number of seconds; ticks and timers fire exactly on time.
 */
module Liveness {

  import opened Options
  import opened Offers
  import opened OfferInvariants

  const PING_INTERVAL := 60.0   // coordPingInterval
  const TICK_INTERVAL := 30.0   // of the prune loop

  // ---- Stale entries ------------------------------------------------------------------------

  /** The coordinator at time `now`. */
  datatype Timed = Timed(now: real, nextTick: real, s: State)

  /** Time passes, or the coordinator takes a step. */
  datatype Event = Pass(d: real) | Do(a: Action)

  /** No tick of the prune loop is missed, and each step reads the clock. */
  predicate CanHappen(t: Timed, e: Event) {
    match e
    case Pass(d) => d >= 0.0 && t.now + d <= t.nextTick
    case Do(a) =>
      && Enabled(t.s, a)
      && (a.Register? || a.Ping? || a.Prune? ==> a.now == t.now)
      && (a.Prune? ==> t.now == t.nextTick && a.ids == Stale(t.s, t.now))
  }

  /** The prune loop drops all stale entries. */
  function Tick(t: Timed): Action
    requires forall id <- t.s.nodes :: t.s.nodes[id] < |t.s.sessions|
  {
    Action.Prune(Stale(t.s, t.now), t.now)
  }

  function Happens(t: Timed, e: Event): Timed
    requires CanHappen(t, e)
  {
    match e
    case Pass(d) => t.(now := t.now + d)
    case Do(a) => Timed(t.now, if a.Prune? then t.nextTick + TICK_INTERVAL else t.nextTick, Apply(t.s, a))
  }

  predicate IsHistory(t: Timed, es: seq<Event>)
    decreases |es|
  {
    es != [] ==> CanHappen(t, es[0]) && IsHistory(Happens(t, es[0]), es[1..])
  }

  function AfterAll(t: Timed, es: seq<Event>): Timed
    requires IsHistory(t, es)
    decreases |es|
  {
    if es == [] then t else AfterAll(Happens(t, es[0]), es[1..])
  }

  function Starting(start: real): Timed {
    Timed(start, start + TICK_INTERVAL, INIT)
  }

  /** The session registered under `id`. */
  function Entry(s: State, id: string): Session
    requires id in s.nodes && s.nodes[id] < |s.sessions|
  {
    s.sessions[s.nodes[id]]
  }

  ghost predicate Fresh(t: Timed) {
    && t.nextTick - TICK_INTERVAL <= t.now <= t.nextTick
    && (forall id <- t.s.nodes :: t.s.nodes[id] < |t.s.sessions|)
    && (forall n <- t.s.sessions :: n.lastSeen <= t.now)
    && (forall id <- t.s.nodes :: Entry(t.s, id).lastSeen >= t.nextTick - TICK_INTERVAL - DROP_AFTER)
  }

  /** Apart from four kinds of steps, nothing touches the registry or a `lastSeen`. */
  lemma OthersKeepTimes(s: State, a: Action)
    requires Enabled(s, a) && !a.Register? && !a.Ping? && !a.Prune? && !a.Unregister?
    ensures var s' := Apply(s, a);
            && s'.nodes == s.nodes && |s'.sessions| == |s.sessions|
            && (forall i :: 0 <= i < |s.sessions| ==> s'.sessions[i].lastSeen == s.sessions[i].lastSeen)
  {
    if OfHandler(a) { HandlerKeepsTimes(s, a); } else { PeerKeepsTimes(s, a); }
  }

  lemma HandlerKeepsTimes(s: State, a: Action)
    requires Enabled(s, a) && OfHandler(a)
    ensures Apply(s, a).nodes == s.nodes && |Apply(s, a).sessions| == |s.sessions|
    ensures forall i :: 0 <= i < |s.sessions| ==> Apply(s, a).sessions[i].lastSeen == s.sessions[i].lastSeen
  {
  }

  lemma PeerKeepsTimes(s: State, a: Action)
    requires Enabled(s, a) && !OfHandler(a) && !a.Register? && !a.Ping? && !a.Prune? && !a.Unregister?
    ensures Apply(s, a).nodes == s.nodes && |Apply(s, a).sessions| == |s.sessions|
    ensures forall i :: 0 <= i < |s.sessions| ==> Apply(s, a).sessions[i].lastSeen == s.sessions[i].lastSeen
  {
  }

  lemma FreshTick(t: Timed)
    requires Fresh(t) && CanHappen(t, Do(Tick(t)))
    ensures Fresh(Happens(t, Do(Tick(t))))
  {
    var t' := Happens(t, Do(Tick(t)));
    forall n <- t'.s.sessions ensures n.lastSeen <= t.now {
      var i :| 0 <= i < |t'.s.sessions| && t'.s.sessions[i] == n;
      assert n.lastSeen == t.s.sessions[i].lastSeen && t.s.sessions[i] in t.s.sessions;
    }
  }

  lemma FreshStep(t: Timed, e: Event)
    requires Fresh(t) && CanHappen(t, e)
    ensures Fresh(Happens(t, e))
  {
    if e.Do? && e.a.Prune? {
      FreshTick(t);
    } else if e.Do? && !e.a.Register? && !e.a.Ping? && !e.a.Prune? && !e.a.Unregister? {
      OthersKeepTimes(t.s, e.a);
    }
  }

  lemma {:induction false} StaysFresh(t: Timed, es: seq<Event>)
    requires Fresh(t) && IsHistory(t, es)
    ensures Fresh(AfterAll(t, es))
    decreases |es|
  {
    if es != [] {
      FreshStep(t, es[0]);
      StaysFresh(Happens(t, es[0]), es[1..]);
    }
  }

  /** In every interleaving, no registered session was last seen more than 210 seconds ago. */
  lemma EntriesAreRecent(start: real, es: seq<Event>, id: string)
    requires IsHistory(Starting(start), es) && id in AfterAll(Starting(start), es).s.nodes
    ensures var t := AfterAll(Starting(start), es);
            t.s.nodes[id] < |t.s.sessions| && 0.0 <= t.now - Entry(t.s, id).lastSeen <= 210.0
  {
    StaysFresh(Starting(start), es);
  }

  /** `x` is registered, was last seen at time 0, and it is `now`. */
  ghost predicate SeenAtZero(t: Timed, now: real) {
    && t.now == now && t.nextTick == now + TICK_INTERVAL
    && t.s.nodes == map["x" := 0] && |t.s.sessions| == 1 && t.s.sessions[0].lastSeen == 0.0
  }

  /** The bound is attained: a tick exactly 180 seconds after the ping keeps the entry for another
      30 seconds. */
  lemma AgeReaches210() returns (es: seq<Event>)
    ensures IsHistory(Starting(0.0), es)
    ensures var t := AfterAll(Starting(0.0), es);
            "x" in t.s.nodes && t.s.nodes["x"] < |t.s.sessions| && t.now - Entry(t.s, "x").lastSeen == 210.0
  {
    var enter := Do(Action.Register("x", [], true, 0.0));
    var rest := Idle(Happens(Starting(0.0), enter), 6);
    es := [enter] + rest;
    assert es[1..] == rest;
  }

  lemma {:induction false} Idle(t: Timed, ticks: nat) returns (es: seq<Event>)
    requires ticks <= 6 && SeenAtZero(t, 180.0 - 30.0 * ticks as real)
    ensures IsHistory(t, es)
    ensures var t' := AfterAll(t, es);
            t'.now == 210.0 && t'.s.nodes == map["x" := 0] && |t'.s.sessions| == 1 && t'.s.sessions[0].lastSeen == 0.0
    decreases ticks
  {
    var t1 := Happens(t, Pass(30.0));
    if ticks == 0 {
      es := [Pass(30.0)];
      assert es[1..] == [] && IsHistory(t1, []);
    } else {
      var tick := Do(Tick(t1));
      assert CanHappen(t1, tick) && Stale(t1.s, t1.now) == {};
      var t2 := Happens(t1, tick);
      var rest := Idle(t2, ticks - 1);
      var tail := [tick] + rest;
      assert tail[1..] == rest && IsHistory(t1, tail) && AfterAll(t1, tail) == AfterAll(t2, rest);
      es := [Pass(30.0)] + tail;
      assert es[1..] == tail;
    }
  }

  // ---- A node running connectCoordinator ------------------------------------------------------

  /** What a node sends: its register message, the ticker's pings, and answers. */
  datatype Kind = Joins | Pings | Answers

  datatype Msg = Msg(sent: real, kind: Kind)

  /** The coordinator, and a node's connection to it.  `session` is the coordinator's session for
      it, `nextPing` when the node's ticker fires and `flight` the messages on their way, in order.
      `deadline` is the session's read deadline, and `expired` says whether it ever passed. */
  datatype Link = Link(
    t: Timed, id: string, services: seq<string>, session: Option<nat>,
    nextPing: real, flight: seq<Msg>, deadline: real, expired: bool)

  /** The node has just sent its register message and started its ticker. */
  function Joining(t: Timed, id: string, services: seq<string>): Link {
    Link(t, id, services, None, t.now + PING_INTERVAL, [Msg(t.now, Joins)], t.now, false)
  }

  datatype Step =
    | Elapse(d: real)
    | SendPing
    | SendAnswer
    | Deliver
    | Other(a: Action)   // any other step of the coordinator
    | CheckDeadline

  /** How the coordinator takes the message `kind`.  An answer goes to the session's wire. */
  function Taking(l: Link, kind: Kind): Option<Action> {
    if kind.Joins? then Some(Register(l.id, l.services, true, l.t.now))
    else if kind.Pings? && l.session.Some? then Some(Ping(l.session.value, l.t.now))
    else None
  }

  /** Steps that are not this node's doing: the session's pings are the node's own, and its read
      loop goes on. */
  predicate Foreign(l: Link, a: Action) {
    l.session.Some? && (a.Ping? || a.ReaderExit?) ==> a.sid != l.session.value
  }

  /** `delay` bounds how long a message is under way. */
  predicate CanStep(l: Link, delay: real, st: Step) {
    match st
    case Elapse(d) =>
      && CanHappen(l.t, Pass(d)) && l.t.now + d <= l.nextPing
      && (l.flight != [] ==> l.t.now + d <= l.flight[0].sent + delay)
    case SendPing => l.t.now == l.nextPing
    case SendAnswer => true
    case Deliver =>
      l.flight != [] && (Taking(l, l.flight[0].kind).Some? ==> CanHappen(l.t, Do(Taking(l, l.flight[0].kind).value)))
    case Other(a) => CanHappen(l.t, Do(a)) && Foreign(l, a)
    case CheckDeadline => true
  }

  function Take(l: Link, delay: real, st: Step): Link
    requires CanStep(l, delay, st)
  {
    match st
    case Elapse(d) => l.(t := Happens(l.t, Pass(d)))
    case SendPing => l.(flight := l.flight + [Msg(l.t.now, Pings)], nextPing := l.nextPing + PING_INTERVAL)
    case SendAnswer => l.(flight := l.flight + [Msg(l.t.now, Answers)])
    case Deliver =>
      var kind := l.flight[0].kind;
      var l' := l.(flight := l.flight[1..], deadline := l.t.now + DROP_AFTER);
      (match Taking(l, kind)
       case None => l'
       case Some(a) =>
         l'.(t := Happens(l.t, Do(a)), session := if kind.Joins? then Some(|l.t.s.sessions|) else l.session))
    case Other(a) => l.(t := Happens(l.t, Do(a)))
    case CheckDeadline => l.(expired := l.expired || (l.session.Some? && l.deadline < l.t.now))
  }

  /** Every message gives the session another 180 seconds to read the next one; only a ping, or the
      registration, counts as having been seen. */
  lemma DeliveryExtends(l: Link, delay: real)
    requires CanStep(l, delay, Deliver) && (l.session.Some? ==> l.session.value < |l.t.s.sessions|)
    ensures var l', kind := Take(l, delay, Deliver), l.flight[0].kind;
            && l'.deadline == l.t.now + 180.0 && l'.flight == l.flight[1..]
            && (l'.session.Some? && !(kind.Answers? && l.session.None?) ==>
                  && l'.session.value < |l'.t.s.sessions|
                  && l'.t.s.sessions[l'.session.value].lastSeen ==
                       if kind.Answers? then l.t.s.sessions[l'.session.value].lastSeen else l.t.now)
  {
  }

  predicate IsTrace(l: Link, delay: real, steps: seq<Step>)
    decreases |steps|
  {
    steps != [] ==> CanStep(l, delay, steps[0]) && IsTrace(Take(l, delay, steps[0]), delay, steps[1..])
  }

  function TakeAll(l: Link, delay: real, steps: seq<Step>): Link
    requires IsTrace(l, delay, steps)
    decreases |steps|
  {
    if steps == [] then l else TakeAll(Take(l, delay, steps[0]), delay, steps[1..])
  }

  /** When the next ping to arrive was, or will be, sent. */
  function NextPing(flight: seq<Msg>, nextPing: real): real {
    if flight == [] then nextPing
    else if flight[0].kind.Pings? then flight[0].sent
    else NextPing(flight[1..], nextPing)
  }

  /** Messages are in the order they were sent, and pings 60 seconds apart. */
  ghost predicate InOrder(flight: seq<Msg>, now: real, nextPing: real) {
    flight != [] ==>
      && flight[0].sent <= now && flight[0].sent <= NextPing(flight, nextPing)
      && (flight[0].kind.Pings? ==> NextPing(flight[1..], nextPing) == flight[0].sent + PING_INTERVAL)
      && (forall m <- flight :: flight[0].sent <= m.sent)
      && (flight[1..] != [] ==> !flight[1].kind.Joins?)
      && InOrder(flight[1..], now, nextPing)
  }

  /** Session `sid` is reading, and its connection was not closed. */
  ghost predicate Reads(s: State, sid: nat) {
    && sid < |s.sessions| && !s.sessions[sid].closed
    && (s.sessions[sid].reader.Reading? || s.sessions[sid].reader.Holding?)
  }

  ghost predicate Alive(l: Link, delay: real) {
    && !l.expired
    && l.t.now <= l.nextPing && InOrder(l.flight, l.t.now, l.nextPing)
    && (l.flight != [] ==> l.t.now <= l.flight[0].sent + delay)
    && (l.flight != [] && l.session.Some? ==> !l.flight[0].kind.Joins?)
    && (l.session.None? ==> l.flight != [] && l.flight[0].kind.Joins?
                            && NextPing(l.flight, l.nextPing) <= l.flight[0].sent + PING_INTERVAL)
    && (l.session.Some? ==>
          && Reads(l.t.s, l.session.value)
          && var seen := l.t.s.sessions[l.session.value].lastSeen;
             && seen <= l.t.now && NextPing(l.flight, l.nextPing) <= seen + PING_INTERVAL
             && l.deadline >= seen + DROP_AFTER)
  }

  /** A message is sent. */
  lemma {:induction false} AppendInOrder(flight: seq<Msg>, now: real, kind: Kind, nextPing: real)
    requires InOrder(flight, now, nextPing) && !kind.Joins?
    requires now <= nextPing && (kind.Pings? ==> now == nextPing)
    ensures var after := if kind.Pings? then nextPing + PING_INTERVAL else nextPing;
            && InOrder(flight + [Msg(now, kind)], now, after)
            && NextPing(flight + [Msg(now, kind)], after) == NextPing(flight, nextPing)
  {
    var m := Msg(now, kind);
    if flight == [] {
      assert [m][1..] == [];
    } else {
      AppendInOrder(flight[1..], now, kind, nextPing);
      assert (flight + [m])[1..] == flight[1..] + [m];
    }
  }

  lemma {:induction false} LaterInOrder(flight: seq<Msg>, now: real, later: real, nextPing: real)
    requires InOrder(flight, now, nextPing) && now <= later
    ensures InOrder(flight, later, nextPing)
  {
    if flight != [] { LaterInOrder(flight[1..], now, later, nextPing); }
  }

  /** The gap between pings as the coordinator sees it. */
  lemma SeenRecently(l: Link, delay: real)
    requires Alive(l, delay) && l.session.Some? && delay <= DROP_AFTER - PING_INTERVAL
    ensures l.t.now - l.t.s.sessions[l.session.value].lastSeen <= DROP_AFTER && l.t.now <= l.deadline
    ensures delay < DROP_AFTER - PING_INTERVAL ==> l.t.now < l.deadline
  {
  }

  /** No step but its own pings touches a session that is read and was seen lately. */
  lemma ForeignKeeps(t: Timed, a: Action, sid: nat)
    requires CanHappen(t, Do(a)) && Reads(t.s, sid) && t.now - t.s.sessions[sid].lastSeen <= DROP_AFTER
    requires a.Ping? || a.ReaderExit? ==> a.sid != sid
    ensures Reads(Apply(t.s, a), sid) && Apply(t.s, a).sessions[sid].lastSeen == t.s.sessions[sid].lastSeen
  {
  }

  lemma StaysAliveStep(l: Link, delay: real, st: Step)
    requires Alive(l, delay) && CanStep(l, delay, st) && 0.0 <= delay <= DROP_AFTER - PING_INTERVAL
    ensures Alive(Take(l, delay, st), delay)
  {
    if l.session.Some? { SeenRecently(l, delay); }
    match st
    case Elapse(d) => LaterInOrder(l.flight, l.t.now, l.t.now + d, l.nextPing);
    case SendPing =>
      AppendInOrder(l.flight, l.t.now, Pings, l.nextPing);
      if l.flight != [] { assert (l.flight + [Msg(l.t.now, Pings)])[0] == l.flight[0]; }
    case SendAnswer =>
      AppendInOrder(l.flight, l.t.now, Answers, l.nextPing);
      if l.flight != [] { assert (l.flight + [Msg(l.t.now, Answers)])[0] == l.flight[0]; }
    case Deliver => StaysAliveDelivering(l, delay);
    case Other(a) => if l.session.Some? { ForeignKeeps(l.t, a, l.session.value); }
    case CheckDeadline =>
  }

  lemma StaysAliveDelivering(l: Link, delay: real)
    requires Alive(l, delay) && CanStep(l, delay, Deliver) && 0.0 <= delay <= DROP_AFTER - PING_INTERVAL
    ensures Alive(Take(l, delay, Deliver), delay)
  {
    if |l.flight| > 1 { assert l.flight[1] in l.flight && l.flight[1..][0] == l.flight[1]; }
  }

  lemma {:induction false} StaysAlive(l: Link, delay: real, steps: seq<Step>)
    requires Alive(l, delay) && IsTrace(l, delay, steps) && 0.0 <= delay <= DROP_AFTER - PING_INTERVAL
    ensures Alive(TakeAll(l, delay, steps), delay)
    decreases |steps|
  {
    if steps != [] {
      StaysAliveStep(l, delay, steps[0]);
      StaysAlive(Take(l, delay, steps[0]), delay, steps[1..]);
    }
  }

  /** If no message is under way for more than 120 seconds, then whatever else the coordinator does,
      the session is never stale at a tick, its connection is not closed, and its read deadline
      does not pass.  At a delay of exactly 120 seconds a ping may arrive at the very deadline,
      which counts as in time; below that it arrives earlier. */
  lemma NeverDropped(t: Timed, id: string, services: seq<string>, delay: real, steps: seq<Step>)
    requires 0.0 <= delay <= 120.0 && IsTrace(Joining(t, id, services), delay, steps)
    ensures var l := TakeAll(Joining(t, id, services), delay, steps);
            && !l.expired
            && (l.session.Some? ==>
                  && l.session.value < |l.t.s.sessions|
                  && ((forall x <- l.t.s.nodes :: l.t.s.nodes[x] < |l.t.s.sessions|) ==>
                        forall x <- Stale(l.t.s, l.t.now) :: l.t.s.nodes[x] != l.session.value)
                  && var n := l.t.s.sessions[l.session.value];
                     && !n.closed && l.t.now - n.lastSeen <= 180.0
                     && l.t.now <= l.deadline && (delay < 120.0 ==> l.t.now < l.deadline))
  {
    assert [Msg(t.now, Joins)][1..] == [];
    StaysAlive(Joining(t, id, services), delay, steps);
    var l := TakeAll(Joining(t, id, services), delay, steps);
    if l.session.Some? { SeenRecently(l, delay); }
  }

  lemma StepFirst(l: Link, delay: real, st: Step, rest: seq<Step>)
    requires CanStep(l, delay, st) && IsTrace(Take(l, delay, st), delay, rest)
    ensures IsTrace(l, delay, [st] + rest)
    ensures TakeAll(l, delay, [st] + rest) == TakeAll(Take(l, delay, st), delay, rest)
  {
    assert ([st] + rest)[1..] == rest;
  }

  /** A session under `x`, last seen at time 0, is alone.  It is `now`, the next tick comes after
      `toTick` and the next ping after `toPing`. */
  ghost predicate Silent(l: Link, now: real, toTick: real, toPing: real) {
    && l.t.now == now && l.t.nextTick == now + toTick && l.nextPing == now + toPing
    && l.session == Some(0) && l.t.s.nodes == map["x" := 0]
    && |l.t.s.sessions| == 1 && l.t.s.sessions[0].lastSeen == 0.0
    && (l.flight != [] ==> l.flight[0].sent == 60.0)
  }

  /** Up to and including the next tick, which comes too early to drop the session. */
  lemma SilentTick(l: Link, delay: real, now: real, toTick: real, toPing: real) returns (tick: Action, l': Link)
    requires Silent(l, now, toTick, toPing) && 0.0 <= toTick <= toPing && now + toTick <= 180.0 && delay > 120.0
    ensures CanStep(l, delay, Elapse(toTick))
    ensures var l1 := Take(l, delay, Elapse(toTick));
            CanStep(l1, delay, Other(tick)) && l' == Take(l1, delay, Other(tick))
    ensures Silent(l', now + toTick, TICK_INTERVAL, toPing - toTick) && l'.flight == l.flight
  {
    var l1 := Take(l, delay, Elapse(toTick));
    tick := Tick(l1.t);
    assert Stale(l1.t.s, l1.t.now) == {};
    l' := Take(l1, delay, Other(tick));
  }

  lemma TickDrops(t: Timed)
    requires t.s.nodes == map["x" := 0] && |t.s.sessions| == 1 && t.s.sessions[0].lastSeen == 0.0 && t.now > 180.0
    ensures var s := Apply(t.s, Tick(t)); s.nodes == map[] && |s.sessions| == 1 && s.sessions[0].closed
  {
    assert t.s.nodes["x"] == 0;
    assert "x" in Stale(t.s, t.now);
  }

  /** With enough delay nothing but the registration arrives until a tick more than 180 seconds
      after it; `minutes` are left of these 180 seconds. */
  lemma {:induction false} Silence(l: Link, delay: real, d: real, minutes: nat) returns (steps: seq<Step>)
    requires minutes <= 3 && 0.0 < d <= 30.0 && d <= delay - 120.0
    requires Silent(l, 180.0 - 60.0 * minutes as real, d, 60.0)
    requires l.flight == [] <==> minutes == 3
    ensures IsTrace(l, delay, steps)
    ensures var s := TakeAll(l, delay, steps).t.s; s.nodes == map[] && |s.sessions| == 1 && s.sessions[0].closed
    decreases minutes
  {
    if minutes > 0 {
      var now := 180.0 - 60.0 * minutes as real;
      var tick1, l1 := SilentTick(l, delay, now, d, 60.0);
      var tick2, l2 := SilentTick(l1, delay, now + d, 30.0, 60.0 - d);
      var l3 := Take(l2, delay, Elapse(30.0 - d));
      var l4 := Take(l3, delay, SendPing);
      var rest := Silence(l4, delay, d, minutes - 1);
      StepFirst(l3, delay, SendPing, rest);
      StepFirst(l2, delay, Elapse(30.0 - d), [SendPing] + rest);
      steps := Ticking(l1, delay, 30.0, tick2, l2, [Elapse(30.0 - d)] + ([SendPing] + rest));
      steps := Ticking(l, delay, d, tick1, l1, steps);
    } else {
      steps := DroppingTick(l, delay, d);
    }
  }

  lemma DroppingTick(l: Link, delay: real, d: real) returns (steps: seq<Step>)
    requires 0.0 < d <= 30.0 && d <= delay - 120.0 && Silent(l, 180.0, d, 60.0)
    ensures IsTrace(l, delay, steps)
    ensures var s := TakeAll(l, delay, steps).t.s; s.nodes == map[] && |s.sessions| == 1 && s.sessions[0].closed
  {
    var l1 := Take(l, delay, Elapse(d));
    TickDrops(l1.t);
    var tick := Tick(l1.t);
    var l2 := Take(l1, delay, Other(tick));
    assert IsTrace(l2, delay, []);
    steps := Ticking(l, delay, d, tick, l2, []);
  }

  lemma Ticking(l: Link, delay: real, d: real, tick: Action, l': Link, rest: seq<Step>) returns (steps: seq<Step>)
    requires CanStep(l, delay, Elapse(d))
    requires var l1 := Take(l, delay, Elapse(d));
             CanStep(l1, delay, Other(tick)) && l' == Take(l1, delay, Other(tick))
    requires IsTrace(l', delay, rest)
    ensures IsTrace(l, delay, steps) && TakeAll(l, delay, steps) == TakeAll(l', delay, rest)
  {
    var l1 := Take(l, delay, Elapse(d));
    StepFirst(l1, delay, Other(tick), rest);
    StepFirst(l, delay, Elapse(d), [Other(tick)] + rest);
    steps := [Elapse(d)] + ([Other(tick)] + rest);
  }

  /** The bound is exact: with any longer delay some run of a coordinator drops a session that a
      node keeps alive. */
  lemma LongerDelayCanPrune(delay: real) returns (start: real, before: seq<Event>, steps: seq<Step>)
    requires delay > 120.0
    ensures IsHistory(Starting(start), before)
    ensures var l := Joining(AfterAll(Starting(start), before), "x", []);
            && IsTrace(l, delay, steps)
            && var s := TakeAll(l, delay, steps).t.s; s.nodes == map[] && |s.sessions| == 1 && s.sessions[0].closed
  {
    var d := if delay > 150.0 then 30.0 else delay - 120.0;
    start, before := TicksAt(d);
    steps := AfterRegistration(Timed(0.0, d, INIT), delay, d);
  }

  /** The coordinator may have been started so that it ticks at any phase. */
  lemma TicksAt(d: real) returns (start: real, before: seq<Event>)
    requires 0.0 < d <= 30.0
    ensures IsHistory(Starting(start), before) && AfterAll(Starting(start), before) == Timed(0.0, d, INIT)
  {
    start, before := d - 30.0, [Pass(30.0 - d)];
    var t := Happens(Starting(start), Pass(30.0 - d));
    assert before[1..] == [] && IsHistory(t, []) && AfterAll(Starting(start), before) == t;
  }

  lemma AfterRegistration(t: Timed, delay: real, d: real) returns (steps: seq<Step>)
    requires t == Timed(0.0, d, INIT) && 0.0 < d <= 30.0 && d <= delay - 120.0
    ensures IsTrace(Joining(t, "x", []), delay, steps)
    ensures var s := TakeAll(Joining(t, "x", []), delay, steps).t.s;
            s.nodes == map[] && |s.sessions| == 1 && s.sessions[0].closed
  {
    var l := Joining(t, "x", []);
    var l1 := Take(l, delay, Deliver);
    var rest := Silence(l1, delay, d, 3);
    StepFirst(l, delay, Deliver, rest);
    steps := [Deliver] + rest;
  }
}
