/**
 When the coordinator's mutexes and a write that does not end block it for good.
 */
module Deadlocks {
  import opened Options
  import opened Offers
  import opened OfferInvariants
  import opened OfferTheorems
  import opened Locks

  // ---- Reachable states ---------------------------------------------------------------------------

  lemma {:induction false} Concat(l: Locked, first: seq<Step>, second: seq<Step>)
    requires IsSchedule(l, first) && IsSchedule(After(l, first), second)
    ensures IsSchedule(l, first + second) && After(l, first + second) == After(After(l, first), second)
    decreases |first|
  {
    if first == [] {
      assert first + second == second;
    } else {
      Concat(Next(l, first[0]), first[1..], second);
      assert (first + second)[1..] == first[1..] + second;
    }
  }

  lemma Prepend(l: Locked, st: Step, rest: seq<Step>) returns (steps: seq<Step>)
    requires Can(l, st) && IsSchedule(Next(l, st), rest)
    ensures steps == [st] + rest && IsSchedule(l, steps) && After(l, steps) == After(Next(l, st), rest)
  {
    steps := [st] + rest;
    assert steps[1..] == rest;
  }

  /** The goroutines of registered sessions have not finished. */
  ghost predicate EntriesRun(s: State) {
    forall id <- s.nodes :: s.nodes[id] < |s.sessions| && !s.sessions[s.nodes[id]].reader.Gone?
  }

  lemma RegisteredRun(s: State)
    requires Inv(s)
    ensures EntriesRun(s)
  {
    forall id <- s.nodes ensures s.nodes[id] < |s.sessions| && !s.sessions[s.nodes[id]].reader.Gone? {
      assert EntryOk(s, id);
    }
  }

  ghost predicate Reached(l: Locked) {
    exists steps: seq<Step> :: IsSchedule(START, steps) && After(START, steps) == l
  }

  lemma ReachedStep(l: Locked, st: Step)
    requires Reached(l) && Can(l, st)
    ensures Reached(Next(l, st))
  {
    var steps: seq<Step> :| IsSchedule(START, steps) && After(START, steps) == l;
    var one := Prepend(l, st, []);
    Concat(START, steps, one);
  }

  ghost predicate HandsOk(s: State) {
    forall sid: nat :: sid < |s.sessions| && s.sessions[sid].reader.Holding? ==>
      s.sessions[sid].reader.ans.requestId in s.handlers
  }

  ghost predicate HandlersOk(s: State) {
    forall rid <- s.handlers :: s.handlers[rid].session < |s.sessions|
  }

  ghost predicate Ok(l: Locked) {
    WritingOk(l) && CallsOk(l) && SweepOk(l) && EntriesRun(l.s) && HandsOk(l.s) && HandlersOk(l.s)
  }

  /** Whatever holds of all runs of the machine without mutexes holds here. */
  lemma ReachedInv(l: Locked)
    requires Reached(l)
    ensures Reachable(l.s) && Inv(l.s) && LockInv(l)
  {
    var steps: seq<Step> :| IsSchedule(START, steps) && After(START, steps) == l;
    LockInvStart();
    LockInvAlways(START, steps);
    var run := SchedulesAreRuns(START, steps);
    ReachableInv(l.s);
  }

  lemma ReachedOk(l: Locked)
    requires Reached(l)
    ensures Ok(l)
  {
    ReachedInv(l);
    RegisteredRun(l.s);
    HandsAreOk(l.s);
  }

  lemma HandsAreOk(s: State)
    requires Inv(s)
    ensures HandsOk(s) && HandlersOk(s)
  {
    forall sid: nat | sid < |s.sessions| && s.sessions[sid].reader.Holding?
      ensures s.sessions[sid].reader.ans.requestId in s.handlers
    {
      assert SessionOk(s.handlers, s.sessions[sid], sid);
    }
  }

  // ---- Mutexes alone make no cycle ----------------------------------------------------------

  datatype Goroutine = Handling(rid: string) | Reading(sid: nat) | Pruning

  /** `g` waits for a mutex that `h` holds. */
  ghost predicate Waits(l: Locked, g: Goroutine, h: Goroutine) {
    match g
    case Handling(rid) =>
      && HasSession(l.s, rid) && l.s.handlers[rid].session in l.writing && !Writes(l, rid)
      && var p := l.s.handlers[rid].phase;
         (NeedsMutex(p) || p.Inserted?)
         && h == Handling(l.writing[l.s.handlers[rid].session])
    case Reading(sid) =>
      || (sid in l.calls && sid in l.writing && h == Handling(l.writing[sid]))
      || (sid < |l.s.sessions| && l.s.sessions[sid].reader.Leaving? && l.sweep.Some? && h == Pruning)
    case Pruning =>
      && l.sweep.Some? && l.sweep.value.at.Some? && l.sweep.value.at.value in l.s.nodes
      && l.s.nodes[l.sweep.value.at.value] in l.writing
      && h == Handling(l.writing[l.s.nodes[l.sweep.value.at.value]])
  }

  /** Who waits for the coordinator's mutex comes last, who writes comes first. */
  ghost function Rank(l: Locked, g: Goroutine): nat {
    match g
    case Handling(rid) => if Writes(l, rid) then 0 else 1
    case Reading(_) => 2
    case Pruning => 1
  }

  lemma WaitsFall(l: Locked, g: Goroutine, h: Goroutine)
    requires WritingOk(l) && Waits(l, g, h)
    ensures Rank(l, h) < Rank(l, g)
  {
  }

  lemma {:induction false} RanksFall(l: Locked, path: seq<Goroutine>)
    requires WritingOk(l) && |path| >= 2
    requires forall i :: 0 <= i < |path| - 1 ==> Waits(l, path[i], path[i + 1])
    ensures Rank(l, path[|path| - 1]) < Rank(l, path[0])
  {
    WaitsFall(l, path[0], path[1]);
    if |path| > 2 { RanksFall(l, path[1..]); }
  }

  /** In no reachable state is there a cycle of goroutines each waiting for a mutex of the next:
      whatever blocks the coordinator has a write in it. */
  lemma NoMutexCycle(l: Locked, path: seq<Goroutine>)
    requires Reached(l) && |path| >= 2
    requires forall i :: 0 <= i < |path| - 1 ==> Waits(l, path[i], path[i + 1])
    ensures path[0] != path[|path| - 1]
  {
    ReachedOk(l);
    RanksFall(l, path);
  }

  // ---- Writes that do not end -----------------------------------------------------------------

  /** A write is in progress on session `x`, its peer does not read and the connection is open. */
  ghost predicate Blocked(l: Locked, x: nat) {
    x in l.writing && x in l.stalled && x < |l.s.sessions| && !l.s.sessions[x].closed
  }

  /** The sweep in progress has still to take the mutex of `id`'s session. */
  ghost predicate Pending(l: Locked, id: string) {
    l.sweep.Some? && id in l.s.nodes && (id in l.sweep.value.left || l.sweep.value.at == Some(id))
  }

  /** The sweep in progress runs, or will run, into a blocked write. */
  ghost predicate Jammed(l: Locked) {
    exists id: string :: Pending(l, id) && Blocked(l, l.s.nodes[id])
  }

  /** Nobody is left to close the connection of a blocked write: its session's goroutine waits for
      the mutex that the writer holds, or will wait for the one that a jammed sweep holds. */
  ghost predicate Dead(l: Locked, x: nat) {
    Blocked(l, x) && (x in l.calls || (Jammed(l) && !l.s.sessions[x].reader.Gone?))
  }

  lemma WriteGoesOn(l: Locked, st: Step, x: nat)
    requires Can(l, st) && Blocked(l, x)
    ensures x in NextWriting(l, st) && NextWriting(l, st)[x] == l.writing[x]
  {
    if st.EndWrite? {
      assert l.s.handlers[st.a.rid].session != x;
    }
  }

  /** A blocked write stays blocked, unless its peer reads again or its session's goroutine ends. */
  lemma BlockedStays(l: Locked, st: Step, x: nat)
    requires Can(l, st) && Blocked(l, x) && st != Resume(x) && !l.s.sessions[x].reader.Gone?
    ensures Blocked(Next(l, st), x) && Next(l, st).writing[x] == l.writing[x]
  {
    WriteGoesOn(l, st, x);
    if Region(l, st).Some? {
      SessionFrame(l.s, Region(l, st).value, x);
    }
  }

  lemma PendingStays(l: Locked, st: Step, id: string)
    requires Can(l, st) && Pending(l, id) && l.s.nodes[id] in l.writing
    ensures Pending(Next(l, st), id) && Next(l, st).s.nodes[id] == l.s.nodes[id]
  {
    if Region(l, st).Some? {
      NodesFrame(l.s, Region(l, st).value);
    }
  }

  /** A jam lasts as long as no peer reads again. */
  lemma JammedStays(l: Locked, st: Step)
    requires EntriesRun(l.s) && Can(l, st) && Jammed(l) && !st.Resume?
    ensures Jammed(Next(l, st))
  {
    var id: string :| Pending(l, id) && Blocked(l, l.s.nodes[id]);
    BlockedStays(l, st, l.s.nodes[id]);
    PendingStays(l, st, id);
  }

  lemma GoroutineRuns(s: State, a: Action, x: nat)
    requires Enabled(s, a) && x < |s.sessions| && !s.sessions[x].reader.Gone? && !a.Unregister?
    ensures x < |Apply(s, a).sessions| && !Apply(s, a).sessions[x].reader.Gone?
  {
  }

  lemma CallGoesOn(l: Locked, st: Step, x: nat)
    requires Can(l, st) && x in l.calls && x in l.writing
    ensures x in NextCalls(l, st)
  {
  }

  /** And so does a dead write. */
  lemma DeadStays(l: Locked, st: Step, x: nat)
    requires EntriesRun(l.s) && CallsOk(l) && Can(l, st) && Dead(l, x) && !st.Resume?
    ensures Dead(Next(l, st), x) && Next(l, st).writing[x] == l.writing[x]
  {
    BlockedStays(l, st, x);
    if x in l.calls {
      CallGoesOn(l, st, x);
    } else {
      JammedStays(l, st);
      if Region(l, st).Some? { GoroutineRuns(l.s, Region(l, st).value, x); }
    }
  }

  // ---- What a dead write stops, for good --------------------------------------------------------

  ghost predicate NobodyResumes(steps: seq<Step>) {
    forall st <- steps :: !st.Resume?
  }

  /** The handler is about to take its session's mutex, to insert or to delete its waiter. */
  ghost predicate NeedsMutex(p: Phase) {
    p.Found? || p.WriteFailed? || p.TimingOut?
  }

  lemma WaiterStays(l: Locked, st: Step, rid: string)
    requires Can(l, st) && rid in l.s.handlers && l.s.handlers[rid].session in l.writing
    requires NeedsMutex(l.s.handlers[rid].phase)
    ensures var hs := Next(l, st).s.handlers;
            && rid in hs && hs[rid].session == l.s.handlers[rid].session && hs[rid].phase == l.s.handlers[rid].phase
  {
    if Region(l, st).Some? {
      NotItsStep(l, st, rid);
      StepExtends(l.s, Region(l, st).value);
      OthersDoNotDelay(l.s, Region(l, st).value, rid);
    }
  }

  lemma NotItsStep(l: Locked, st: Step, rid: string)
    requires Can(l, st) && rid in l.s.handlers && l.s.handlers[rid].session in l.writing
    requires NeedsMutex(l.s.handlers[rid].phase) && Region(l, st).Some?
    ensures !OwnStep(Region(l, st).value, rid)
  {
  }

  /** Whatever happens, short of the peer reading again, a dead write goes on, and no other handler
      of its session gets past the mutex. */
  lemma {:induction false} DeadForever(l: Locked, steps: seq<Step>, x: nat)
    requires Reached(l) && Dead(l, x) && IsSchedule(l, steps) && NobodyResumes(steps)
    ensures var l' := After(l, steps);
            && Dead(l', x) && l'.writing[x] == l.writing[x] && InPhase(l'.s, l.writing[x], Inserted)
            && forall rid <- l.s.handlers :: l.s.handlers[rid].session == x && NeedsMutex(l.s.handlers[rid].phase) ==>
                 rid in l'.s.handlers && l'.s.handlers[rid].phase == l.s.handlers[rid].phase
    decreases |steps|
  {
    ReachedOk(l);
    if steps != [] {
      var l1 := Next(l, steps[0]);
      assert steps[0] in steps && forall st <- steps[1..] :: st in steps;
      DeadStays(l, steps[0], x);
      ReachedStep(l, steps[0]);
      forall rid <- l.s.handlers | l.s.handlers[rid].session == x && NeedsMutex(l.s.handlers[rid].phase)
        ensures rid in l1.s.handlers && l1.s.handlers[rid].session == x
        ensures l1.s.handlers[rid].phase == l.s.handlers[rid].phase
      {
        WaiterStays(l, steps[0], rid);
      }
      DeadForever(l1, steps[1..], x);
    }
  }

  lemma NobodyEnters(l: Locked, st: Step)
    requires Can(l, st) && l.sweep.Some?
    ensures var s := Next(l, st).s;
            && s.handlers.Keys == l.s.handlers.Keys && s.notFound == l.s.notFound && |s.sessions| == |l.s.sessions|
            && forall i: nat :: i < |s.sessions| ==> s.sessions[i].reader.Gone? == l.s.sessions[i].reader.Gone?
  {
    if Region(l, st).Some? { NobodyNew(l.s, Region(l, st).value); }
  }

  lemma NobodyNew(s: State, a: Action)
    requires Enabled(s, a) && !a.Lookup? && !a.Register? && !a.Unregister?
    ensures var s' := Apply(s, a);
            && s'.handlers.Keys == s.handlers.Keys && s'.notFound == s.notFound && |s'.sessions| == |s.sessions|
            && forall i: nat :: i < |s.sessions| ==> s'.sessions[i].reader.Gone? == s.sessions[i].reader.Gone?
  {
    if OfHandler(a) { QuietHandler(s, a); } else if !a.Prune? { QuietSession(s, a); }
  }

  /** And while a sweep is jammed no lookup, no registration and no unregistration is completed, and
      no other sweep begins. */
  lemma {:induction false} JammedForever(l: Locked, steps: seq<Step>)
    requires Reached(l) && Jammed(l) && IsSchedule(l, steps) && NobodyResumes(steps)
    ensures var l' := After(l, steps);
            && Jammed(l') && l'.sweep.Some?
            && l'.s.handlers.Keys == l.s.handlers.Keys && l'.s.notFound == l.s.notFound
            && |l'.s.sessions| == |l.s.sessions|
            && forall i: nat :: i < |l.s.sessions| ==> l'.s.sessions[i].reader.Gone? == l.s.sessions[i].reader.Gone?
    decreases |steps|
  {
    if steps != [] {
      assert steps[0] in steps && forall st <- steps[1..] :: st in steps;
      ReachedOk(l);
      JammedStays(l, steps[0]);
      NobodyEnters(l, steps[0]);
      ReachedStep(l, steps[0]);
      JammedForever(Next(l, steps[0]), steps[1..]);
    }
  }

  /** A tick that falls into a blocked write of a registered session jams at once. */
  lemma TickJams(l: Locked, id: string, now: real)
    requires Reached(l) && l.sweep.None? && id in l.s.nodes && Blocked(l, l.s.nodes[id])
    ensures Can(l, BeginTick(now)) && Reached(Next(l, BeginTick(now)))
    ensures Jammed(Next(l, BeginTick(now))) && Dead(Next(l, BeginTick(now)), l.s.nodes[id])
  {
    ReachedOk(l);
    ReachedStep(l, BeginTick(now));
    TickPends(l, id, now);
  }

  lemma TickPends(l: Locked, id: string, now: real)
    requires EntriesRun(l.s) && l.sweep.None? && id in l.s.nodes && Blocked(l, l.s.nodes[id])
    ensures Jammed(Next(l, BeginTick(now))) && Dead(Next(l, BeginTick(now)), l.s.nodes[id])
  {
    assert Pending(Next(l, BeginTick(now)), id);
  }

  /** A ping or an answer that arrives during a blocked write kills it. */
  lemma ArrivalKills(l: Locked, x: nat, call: Call)
    requires Blocked(l, x) && Can(l, Arrive(x, call))
    ensures Dead(Next(l, Arrive(x, call)), x)
  {
  }

  /** A schedule of seven steps after which nothing moves: handler `a` writes, handler `b` of the
      same session waits for the mutex, and a tick waits for it too. */
  lemma StuckSchedule() returns (steps: seq<Step>)
    ensures IsSchedule(START, steps)
    ensures var l := After(START, steps);
            && Jammed(l) && Dead(l, 0) && l.writing == map[0 := "a"]
            && InPhase(l.s, "b", Found) && l.s.handlers["b"].session == 0
  {
    var setUp := TwoHandlers();
    var l := After(START, setUp);
    var l1 := Next(l, BeginWrite("a"));
    var l2 := Next(l1, Stall(0));
    var rest := Prepend(l2, BeginTick(0.0), []);
    rest := Prepend(l1, Stall(0), rest);
    rest := Prepend(l, BeginWrite("a"), rest);
    Concat(START, setUp, rest);
    steps := setUp + rest;
    ReachedOk(After(START, steps));
    assert Pending(After(START, steps), "x") && Blocked(After(START, steps), 0);
  }

  lemma TwoHandlers() returns (steps: seq<Step>)
    ensures IsSchedule(START, steps)
    ensures var l := After(START, steps);
            && l == START.(s := l.s) && l.s.nodes == map["x" := 0] && |l.s.sessions| == 1 && !l.s.sessions[0].closed
            && InPhase(l.s, "a", Inserted) && l.s.handlers["a"].session == 0
            && InPhase(l.s, "b", Found) && l.s.handlers["b"].session == 0
  {
    var first := OneHandler();
    var l := After(START, first);
    var l1 := Next(l, Do(Lookup("x", "b", "")));
    var second := Prepend(l1, Do(Insert("a")), []);
    second := Prepend(l, Do(Lookup("x", "b", "")), second);
    Concat(START, first, second);
    steps := first + second;
  }

  lemma OneHandler() returns (steps: seq<Step>)
    ensures IsSchedule(START, steps)
    ensures var l := After(START, steps);
            && l == START.(s := l.s) && l.s.nodes == map["x" := 0] && |l.s.sessions| == 1 && !l.s.sessions[0].closed
            && l.s.handlers == map["a" := Handler(0, "", Found, [], 0)]
  {
    var l1 := Next(START, Do(Register("x", [], true, 0.0)));
    steps := Prepend(l1, Do(Lookup("x", "a", "")), []);
    steps := Prepend(START, Do(Register("x", [], true, 0.0)), steps);
  }

  // ---- Otherwise everybody can return -------------------------------------------------------------

  /** Steps of the coordinator's own goroutines that need no peer and no client: what is begun goes
      on, and a session may end, as it does at its read deadline. */
  ghost predicate Own(st: Step) {
    match st
    case Do(a) => !a.Register? && !a.Lookup? && !a.NodeAnswer? && !a.NodeSend?
    case Arrive(_, _) => false
    case BeginTick(_) => false
    case Stall(_) => false
    case Resume(_) => false
    case _ => true
  }

  /** From `l` such steps lead to `l'`. */
  ghost predicate Leads(l: Locked, l': Locked) {
    exists steps: seq<Step> :: IsSchedule(l, steps) && After(l, steps) == l' && forall st <- steps :: Own(st)
  }

  lemma Here(l: Locked)
    ensures Leads(l, l)
  {
    assert IsSchedule(l, []) && After(l, []) == l;
  }

  lemma ThenStep(l: Locked, l1: Locked, st: Step)
    requires Leads(l, l1) && Can(l1, st) && Own(st)
    ensures Leads(l, Next(l1, st))
  {
    var steps: seq<Step> :| IsSchedule(l, steps) && After(l, steps) == l1 && forall st <- steps :: Own(st);
    var one := Prepend(l1, st, []);
    Concat(l, steps, one);
    assert forall x <- steps + one :: x in steps || x == st;
  }

  /** What the steps below leave alone. */
  ghost predicate Shrinks(l: Locked, l': Locked) {
    && l'.stalled == l.stalled && |l'.s.sessions| == |l.s.sessions| && Extends(l.s.handlers, l'.s.handlers)
    && (forall x <- l'.writing :: x in l.writing) && (forall x <- l'.calls :: x in l.calls)
    && (forall x: nat :: x < |l.s.sessions| && l.s.sessions[x].closed ==> l'.s.sessions[x].closed)
  }

  /** From the reachable state `l0`, steps of the coordinator's own lead to `l`. */
  ghost predicate Comes(l0: Locked, l: Locked) {
    Leads(l0, l) && Reached(l) && Ok(l)
  }

  lemma ComesStep(l0: Locked, l: Locked, st: Step)
    requires Leads(l0, l) && Reached(l) && Can(l, st) && Own(st)
    ensures Comes(l0, Next(l, st))
  {
    ThenStep(l0, l, st);
    ReachedStep(l, st);
    ReachedOk(Next(l, st));
  }

  /** A write that is not blocked can end, with an error if nothing else. */
  lemma EndsWrite(l: Locked, x: nat) returns (st: Step)
    requires WritingOk(l) && x in l.writing && !Blocked(l, x)
    ensures Can(l, st) && Own(st) && Shrinks(l, Next(l, st))
    ensures var l' := Next(l, st);
            && l' == Locked(l'.s, l.writing - {x}, l.calls, l.sweep, l.stalled)
            && l'.s.nodes == l.s.nodes && l'.s.sessions == l.s.sessions
  {
    var rid := l.writing[x];
    st := EndWrite(FailForward(rid, false));
  }

  lemma Visits(l: Locked)
    requires CanVisit(l)
    ensures Shrinks(l, Next(l, Visit))
    ensures var l' := Next(l, Visit);
            && l' == Locked(l'.s, l.writing, l.calls, Some(l.sweep.value.(at := None)), l.stalled)
            && (forall id <- l'.s.nodes :: id in l.s.nodes && l'.s.nodes[id] == l.s.nodes[id])
            && (forall x: nat :: x < |l.s.sessions| ==> l'.s.sessions[x].reader == l.s.sessions[x].reader)
  {
  }

  /** A bound on the steps that the sweep in progress has still to wait for. */
  ghost function Togo(l: Locked): nat {
    if l.sweep.None? then 0
    else 1 + 2 * |l.sweep.value.left| + (if l.sweep.value.at.None? then 0 else 1) + |l.writing.Keys|
  }

  /** `l'` is closer to the end of the sweep. */
  ghost predicate Closer(l: Locked, l': Locked) {
    && Shrinks(l, l') && l'.calls == l.calls && Togo(l') < Togo(l)
    && (forall x: nat :: x < |l.s.sessions| ==> l'.s.sessions[x].reader == l.s.sessions[x].reader)
    && (forall id <- l'.s.nodes :: id in l.s.nodes && l'.s.nodes[id] == l.s.nodes[id])
    && (forall id <- l'.s.nodes :: Pending(l', id) ==> Pending(l, id))
  }

  /** Nothing new is blocked or pending. */
  lemma StaysUnjammed(l: Locked, l': Locked)
    requires !Jammed(l) && Closer(l, l') && EntriesRun(l'.s)
    ensures !Jammed(l')
  {
    forall id: string | Pending(l', id) ensures !Blocked(l', l'.s.nodes[id]) {
      assert Pending(l, id) && !Blocked(l, l.s.nodes[id]);
    }
  }

  lemma PicksCloser(l: Locked, id: string)
    requires Can(l, Pick(id)) && SweepOk(l)
    ensures Closer(l, Next(l, Pick(id)))
  {
    var left := l.sweep.value.left;
    assert left == left - {id} + {id} && |left - {id}| == |left| - 1;
  }

  lemma EndsCloser(l: Locked)
    requires Can(l, EndTick)
    ensures Closer(l, Next(l, EndTick))
  {
  }

  lemma WriteCloser(l: Locked, st: Step, x: nat)
    requires Can(l, st) && Shrinks(l, Next(l, st)) && x in l.writing && l.sweep.Some?
    requires var l' := Next(l, st);
             && l' == Locked(l'.s, l.writing - {x}, l.calls, l.sweep, l.stalled)
             && l'.s.nodes == l.s.nodes && l'.s.sessions == l.s.sessions
    ensures Closer(l, Next(l, st))
  {
    assert (l.writing - {x}).Keys == l.writing.Keys - {x};
  }

  lemma VisitCloser(l: Locked)
    requires CanVisit(l)
    ensures Closer(l, Next(l, Visit))
  {
    Visits(l);
  }

  /** One more step of a sweep that is not jammed. */
  lemma SweepStep(l: Locked) returns (st: Step)
    requires SweepOk(l) && WritingOk(l) && EntriesRun(l.s) && !Jammed(l) && l.sweep.Some?
    ensures Can(l, st) && Own(st) && Closer(l, Next(l, st))
  {
    var sw := l.sweep.value;
    if sw.at.Some? {
      var x := l.s.nodes[sw.at.value];
      assert Pending(l, sw.at.value);
      if x in l.writing {
        st := EndsWrite(l, x);
        WriteCloser(l, st, x);
      } else {
        st := Visit;
        VisitCloser(l);
      }
    } else if sw.left != {} {
      var id :| id in sw.left;
      st := Pick(id);
      PicksCloser(l, id);
    } else {
      st := EndTick;
      EndsCloser(l);
    }
  }

  /** A sweep that is not jammed can end. */
  lemma {:induction false} SweepEnds(l0: Locked, l: Locked) returns (l': Locked)
    requires Comes(l0, l) && !Jammed(l)
    ensures Comes(l0, l') && Shrinks(l, l') && l'.sweep.None? && l'.calls == l.calls
    ensures forall x: nat :: x < |l.s.sessions| ==> l'.s.sessions[x].reader == l.s.sessions[x].reader
    decreases Togo(l)
  {
    if l.sweep.None? {
      l' := l;
    } else {
      var st := SweepStep(l);
      ComesStep(l0, l, st);
      StaysUnjammed(l, Next(l, st));
      l' := SweepEnds(l0, Next(l, st));
    }
  }

  // ---- Closing a connection -----------------------------------------------------------------------

  /** The mutex of session `x` is free, and a write to it ends. */
  ghost predicate Ready(l: Locked, x: nat) {
    x !in l.writing && x < |l.s.sessions| && (x in l.stalled ==> l.s.sessions[x].closed)
  }

  /** The session's goroutine can take another step towards its end. */
  ghost predicate Nearer(l: Locked, l': Locked, x: nat)
    requires x < |l.s.sessions|
  {
    && Shrinks(l, l') && l'.calls == l.calls && l'.writing == l.writing && l'.sweep == l.sweep
    && Stage(l', x) < Stage(l, x)
  }

  lemma ReaderGoesOn(l: Locked, x: nat) returns (st: Step)
    requires HandsOk(l.s) && x < |l.s.sessions| && x !in l.calls && !l.s.sessions[x].closed
    requires l.s.sessions[x].reader.Holding? || l.s.sessions[x].reader.Reading?
    ensures Can(l, st) && Own(st) && Nearer(l, Next(l, st), x)
  {
    st := Do(if l.s.sessions[x].reader.Holding? then ReaderSend(x) else ReaderExit(x));
  }

  lemma EndGoesOn(l: Locked, x: nat) returns (st: Step)
    requires x < |l.s.sessions| && l.sweep.None? && !l.s.sessions[x].closed
    requires l.s.sessions[x].reader.Leaving? || l.s.sessions[x].reader.Gone?
    ensures Can(l, st) && Own(st) && Nearer(l, Next(l, st), x)
  {
    st := Do(if l.s.sessions[x].reader.Leaving? then Unregister(x) else CloseConn(x));
  }

  ghost function Stage(l: Locked, x: nat): nat
    requires x < |l.s.sessions|
  {
    if l.s.sessions[x].closed then 0
    else match l.s.sessions[x].reader
      case Holding(_) => 4
      case Reading => 3
      case Leaving => 2
      case Gone => 1
  }

  lemma {:induction false} Closes(l0: Locked, l: Locked, x: nat) returns (l': Locked)
    requires Comes(l0, l) && x < |l.s.sessions| && x !in l.calls && l.sweep.None?
    ensures Comes(l0, l') && Shrinks(l, l') && l'.s.sessions[x].closed
    decreases Stage(l, x)
  {
    if l.s.sessions[x].closed {
      l' := l;
    } else {
      var st;
      if l.s.sessions[x].reader.Holding? || l.s.sessions[x].reader.Reading? {
        st := ReaderGoesOn(l, x);
      } else {
        st := EndGoesOn(l, x);
      }
      ComesStep(l0, l, st);
      l' := Closes(l0, Next(l, st), x);
      ShrinksFurther(l, Next(l, st), l');
    }
  }

  lemma ShrinksFurther(l: Locked, l1: Locked, l2: Locked)
    requires Shrinks(l, l1) && Shrinks(l1, l2)
    ensures Shrinks(l, l2)
  {
  }

  /** A goroutine that waits for a mutex which is free gets it. */
  lemma CallEnds(l: Locked, x: nat) returns (st: Step)
    requires CallsOk(l) && x in l.calls && x !in l.writing
    ensures Can(l, st) && Own(st) && Shrinks(l, Next(l, st)) && x !in Next(l, st).calls
    ensures Next(l, st).writing == l.writing && Next(l, st).sweep == l.sweep && Next(l, st).s.nodes == l.s.nodes
    ensures forall i: nat :: i < |l.s.sessions| ==> Next(l, st).s.sessions[i].closed == l.s.sessions[i].closed
  {
    st := Do(if l.calls[x].PingCall? then Ping(x, 0.0) else ReaderTake(x));
  }

  /** Nobody's connection is left without someone to close it: then any session can be made ready. */
  lemma GetsReady(l0: Locked, l: Locked, x: nat) returns (l': Locked)
    requires Comes(l0, l) && x < |l.s.sessions| && !Jammed(l) && (x in l.calls ==> !Blocked(l, x))
    ensures Comes(l0, l') && Shrinks(l, l') && Ready(l', x)
  {
    if x !in l.stalled || l.s.sessions[x].closed {
      l' := FreesMutex(l0, l, x);
    } else {
      var l1 := l;
      if x in l.calls {
        var st := CallEnds(l, x);
        ComesStep(l0, l, st);
        l1 := Next(l, st);
        SameJam(l, l1);
      }
      var l2 := SweepEnds(l0, l1);
      ShrinksFurther(l, l1, l2);
      var l3 := Closes(l0, l2, x);
      ShrinksFurther(l, l2, l3);
      l' := FreesMutex(l0, l3, x);
      ShrinksFurther(l, l3, l');
    }
  }

  lemma SameJam(l: Locked, l': Locked)
    requires !Jammed(l) && EntriesRun(l.s) && |l'.s.sessions| == |l.s.sessions|
    requires l'.writing == l.writing && l'.sweep == l.sweep && l'.stalled == l.stalled && l'.s.nodes == l.s.nodes
    requires forall i: nat :: i < |l.s.sessions| ==> l'.s.sessions[i].closed == l.s.sessions[i].closed
    ensures !Jammed(l')
  {
    forall id: string | Pending(l', id) ensures !Blocked(l', l'.s.nodes[id]) {
      assert Pending(l, id) && !Blocked(l, l.s.nodes[id]);
    }
  }

  lemma FreesMutex(l0: Locked, l: Locked, x: nat) returns (l': Locked)
    requires Comes(l0, l) && x < |l.s.sessions| && (x in l.stalled ==> l.s.sessions[x].closed)
    ensures Comes(l0, l') && Shrinks(l, l') && Ready(l', x)
  {
    l' := l;
    if x in l.writing {
      var st := EndsWrite(l, x);
      ComesStep(l0, l, st);
      l' := Next(l, st);
    }
  }

  // ---- Returning ------------------------------------------------------------------------------------

  /** Its own write is in progress, and ends. */
  ghost predicate Ending(l: Locked, rid: string) {
    && Writes(l, rid) && l.s.handlers[rid].phase.Inserted?
    && (l.s.handlers[rid].session in l.stalled ==> SessionOf(l.s, rid).closed)
  }

  ghost function Left(l: Locked, rid: string): nat
    requires rid in l.s.handlers
  {
    2 * StepsLeft(l.s.handlers[rid].phase) + (if Ending(l, rid) then 0 else 1)
  }

  /** With its session ready, a handler goes on to its return. */
  ghost predicate Goes(l: Locked, l': Locked, rid: string)
    requires rid in l.s.handlers
  {
    && rid in l'.s.handlers && l'.s.handlers[rid].session == l.s.handlers[rid].session
    && (Ready(l', l.s.handlers[rid].session) || Ending(l', rid)) && Left(l', rid) < Left(l, rid)
  }

  lemma EndingGoesOn(l: Locked, rid: string) returns (st: Step)
    requires Ending(l, rid)
    ensures Can(l, st) && Own(st) && Goes(l, Next(l, st), rid)
  {
    st := EndWrite(FailForward(rid, false));
  }

  lemma WritingGoesOn(l: Locked, rid: string) returns (st: Step)
    requires InPhase(l.s, rid, Inserted) && Ready(l, l.s.handlers[rid].session) && !Ending(l, rid)
    ensures Can(l, st) && Own(st) && Goes(l, Next(l, st), rid)
  {
    st := BeginWrite(rid);
  }

  lemma InsertGoesOn(l: Locked, rid: string) returns (st: Step)
    requires InPhase(l.s, rid, Found) && Ready(l, l.s.handlers[rid].session)
    ensures Can(l, st) && Own(st) && Goes(l, Next(l, st), rid)
  {
    st := Do(Insert(rid));
  }

  lemma DropGoesOn(l: Locked, rid: string) returns (st: Step)
    requires InPhase(l.s, rid, WriteFailed) || InPhase(l.s, rid, TimingOut)
    requires Ready(l, l.s.handlers[rid].session)
    ensures Can(l, st) && Own(st) && Goes(l, Next(l, st), rid)
  {
    st := Do(if l.s.handlers[rid].phase.WriteFailed? then DropFailed(rid) else DropTimedOut(rid));
  }

  lemma HandlerGoesOn(l: Locked, rid: string) returns (st: Step)
    requires HasSession(l.s, rid) && (l.s.handlers[rid].phase.Waiting? || l.s.handlers[rid].phase.Received?)
    requires Ready(l, l.s.handlers[rid].session)
    ensures Can(l, st) && Own(st) && Goes(l, Next(l, st), rid)
  {
    st := Do(if l.s.handlers[rid].phase.Waiting? then Timeout(rid) else Record(rid));
  }

  lemma {:induction false} Returns(l0: Locked, l: Locked, rid: string) returns (l': Locked)
    requires Comes(l0, l) && rid in l.s.handlers
    requires Ready(l, l.s.handlers[rid].session) || Ending(l, rid)
    ensures Comes(l0, l') && rid in l'.s.handlers && Returned(l'.s.handlers[rid].phase)
    decreases Left(l, rid)
  {
    if Returned(l.s.handlers[rid].phase) {
      l' := l;
    } else {
      var st;
      if Ending(l, rid) {
        st := EndingGoesOn(l, rid);
      } else if l.s.handlers[rid].phase.Inserted? {
        st := WritingGoesOn(l, rid);
      } else if l.s.handlers[rid].phase.Found? {
        st := InsertGoesOn(l, rid);
      } else if NeedsMutex(l.s.handlers[rid].phase) {
        st := DropGoesOn(l, rid);
      } else {
        st := HandlerGoesOn(l, rid);
      }
      ComesStep(l0, l, st);
      l' := Returns(l0, Next(l, st), rid);
    }
  }

  /** Steps of the coordinator's own can bring handler `rid` to its return. */
  ghost predicate CanReturn(l: Locked, rid: string) {
    exists l': Locked :: Leads(l, l') && rid in l'.s.handlers && Returned(l'.s.handlers[rid].phase)
  }

  /** A handler whose session's write is not dead can return, unless a sweep is jammed. */
  lemma ReturnsUnlessDead(l: Locked, rid: string)
    requires Reached(l) && rid in l.s.handlers && forall x: nat :: !Dead(l, x)
    ensures CanReturn(l, rid)
  {
    ReachedOk(l);
    Here(l);
    var x := l.s.handlers[rid].session;
    if Jammed(l) {
      var id: string :| Pending(l, id) && Blocked(l, l.s.nodes[id]);
      assert Dead(l, l.s.nodes[id]);
    }
    assert !Dead(l, x);
    var l1 := GetsReady(l, l, x);
    var l2 := Returns(l, l1, rid);
  }

  lemma DeadNeverReturns(l: Locked, x: nat)
    requires Reached(l) && Dead(l, x)
    ensures l.writing[x] in l.s.handlers && !CanReturn(l, l.writing[x])
  {
    WriterKnown(l, x);
    forall l': Locked | Leads(l, l') ensures InPhase(l'.s, l.writing[x], Inserted) {
      NeverEnds(l, l', x);
    }
  }

  lemma WriterKnown(l: Locked, x: nat)
    requires Reached(l) && x in l.writing
    ensures l.writing[x] in l.s.handlers
  {
    ReachedOk(l);
  }

  lemma NeverEnds(l: Locked, l': Locked, x: nat)
    requires Reached(l) && Dead(l, x) && Leads(l, l')
    ensures InPhase(l'.s, l.writing[x], Inserted)
  {
    var steps: seq<Step> :| IsSchedule(l, steps) && After(l, steps) == l' && forall st <- steps :: Own(st);
    DeadForever(l, steps, x);
  }

  /** In a reachable state, every handler can return without any peer's or client's help exactly if
      no write is dead. */
  lemma EveryoneCanReturn(l: Locked)
    requires Reached(l)
    ensures (forall rid <- l.s.handlers :: CanReturn(l, rid)) <==> (forall x: nat :: !Dead(l, x))
  {
    if forall x: nat :: !Dead(l, x) {
      forall rid <- l.s.handlers ensures CanReturn(l, rid) { ReturnsUnlessDead(l, rid); }
    } else {
      var x: nat :| Dead(l, x);
      DeadNeverReturns(l, x);
    }
  }

  /** So if every write that is begun ends, every handler in flight can always return. */
  lemma EndingWritesSuffice(l: Locked, rid: string)
    requires Reached(l) && rid in l.s.handlers && l.stalled == {}
    ensures CanReturn(l, rid)
  {
    EveryoneCanReturn(l);
  }
}
