/**
 The coordinator's mutexes, and writes that may block.

 Most locked regions do nothing that blocks, so they are one step here too, which can be taken
 when their mutexes are free.  Two hold a mutex for longer: a handler that writes its offer
 holds its session's mutex until the write ends, and a sweep of the prune loop holds the
 coordinator's mutex and takes each session's in turn.  A write to a peer that has stopped
 reading does not end until the connection is closed; no write has a deadline.
 */
module Locks {
  import opened Options
  import opened Offers
  import opened OfferInvariants
  import opened OfferTheorems

  // ---- The machine ------------------------------------------------------------------------

  /** A sweep over the registry: the entries it has still to come to, and the one whose session's
      mutex it is about to take. */
  datatype Sweep = Sweep(now: real, left: set<string>, at: Option<string>)

  /** What a session's goroutine is about to do under its session's mutex. */
  datatype Call = PingCall | AnswerCall

  /** `writing` are the sessions whose mutex is held by a handler in its write, `calls` the
      goroutines that go for their own session's mutex, and `stalled` the peers that do not read
      (nor fail): a write to one ends only when the connection is closed.  The coordinator's mutex
      is held exactly during a sweep. */
  datatype Locked = Locked(
    s: State, writing: map<nat, string>, calls: map<nat, Call>, sweep: Option<Sweep>, stalled: set<nat>)

  const START := Locked(INIT, map[], map[], None, {})

  datatype Step =
    | Do(a: Action)             // a region that does not block
    | Arrive(sid: nat, call: Call)   // a ping or an answer arrives
    | BeginWrite(rid: string)
    | EndWrite(a: Action)
    | BeginTick(now: real)
    | Pick(id: string)
    | Visit
    | EndTick
    | Stall(sid: nat)
    | Resume(sid: nat)          // the peer reads again, or its connection breaks

  /** The mutexes that the region of `a` needs are free, and its goroutine is not elsewhere. */
  predicate Free(l: Locked, a: Action) {
    match a
    case Register(_, _, _, _) => l.sweep.None?
    case Unregister(_) => l.sweep.None?
    case Lookup(_, _, _) => l.sweep.None?
    case Ping(sid, _) => sid in l.calls && l.calls[sid].PingCall? && sid !in l.writing
    case ReaderTake(sid) => sid in l.calls && l.calls[sid].AnswerCall? && sid !in l.writing
    case ReaderExit(sid) => sid !in l.calls
    case Insert(rid) => MutexFree(l, rid)
    case DropFailed(rid) => MutexFree(l, rid)
    case DropTimedOut(rid) => MutexFree(l, rid)
    case Forward(_) => false
    case FailForward(_, _) => false
    case Prune(_, _) => false
    case _ => true
  }

  /** The mutex of the session of handler `rid`. */
  predicate MutexFree(l: Locked, rid: string) {
    rid in l.s.handlers && l.s.handlers[rid].session !in l.writing
  }

  /** Handler `rid` is in its write. */
  predicate Writes(l: Locked, rid: string) {
    HasSession(l.s, rid) && l.s.handlers[rid].session in l.writing && l.writing[l.s.handlers[rid].session] == rid
  }

  predicate CanEnd(l: Locked, a: Action) {
    && (a.Forward? || a.FailForward?) && Writes(l, a.rid) && Enabled(l.s, a)
    && (l.s.handlers[a.rid].session in l.stalled ==> SessionOf(l.s, a.rid).closed)
  }

  /** The sweep has `at` in hand, and its session's mutex is free. */
  predicate CanVisit(l: Locked) {
    && l.sweep.Some? && l.sweep.value.at.Some? && l.sweep.value.at.value in l.s.nodes
    && l.s.nodes[l.sweep.value.at.value] !in l.writing && forall id <- l.s.nodes :: l.s.nodes[id] < |l.s.sessions|
  }

  predicate Can(l: Locked, st: Step) {
    match st
    case Do(a) => Enabled(l.s, a) && Free(l, a)
    case Arrive(sid, call) =>
      && sid < |l.s.sessions| && l.s.sessions[sid].reader.Reading? && sid !in l.calls
      && (call.AnswerCall? ==> l.s.sessions[sid].wire != [])
    case BeginWrite(rid) => InPhase(l.s, rid, Inserted) && MutexFree(l, rid)
    case EndWrite(a) => CanEnd(l, a)
    case BeginTick(_) => l.sweep.None?
    case Pick(id) => l.sweep.Some? && l.sweep.value.at.None? && id in l.sweep.value.left
    case Visit => CanVisit(l)
    case EndTick => l.sweep.Some? && l.sweep.value.at.None? && l.sweep.value.left == {}
    case Stall(_) => true
    case Resume(_) => true
  }

  /** The entry in hand is dropped if it is stale. */
  function Visited(l: Locked): Option<Action>
    requires CanVisit(l)
  {
    var id, now := l.sweep.value.at.value, l.sweep.value.now;
    if l.s.sessions[l.s.nodes[id]].lastSeen < now - DROP_AFTER then Some(Action.Prune({id}, now)) else None
  }

  /** The step of the machine without mutexes that `st` takes, if any. */
  function Region(l: Locked, st: Step): Option<Action>
    requires Can(l, st)
  {
    match st
    case Do(a) => Some(a)
    case EndWrite(a) => Some(a)
    case Visit => Visited(l)
    case _ => None
  }

  function NextCalls(l: Locked, st: Step): map<nat, Call> {
    if st.Arrive? then l.calls[st.sid := st.call]
    else if st.Do? && (st.a.Ping? || st.a.ReaderTake?) then l.calls - {st.a.sid}
    else l.calls
  }

  function NextWriting(l: Locked, st: Step): map<nat, string>
    requires Can(l, st)
  {
    if st.BeginWrite? then l.writing[l.s.handlers[st.rid].session := st.rid]
    else if st.EndWrite? then l.writing - {l.s.handlers[st.a.rid].session}
    else l.writing
  }

  function NextSweep(l: Locked, st: Step): Option<Sweep>
    requires Can(l, st)
  {
    match st
    case BeginTick(now) => Some(Sweep(now, l.s.nodes.Keys, None))
    case Pick(id) => Some(l.sweep.value.(left := l.sweep.value.left - {id}, at := Some(id)))
    case Visit => Some(l.sweep.value.(at := None))
    case EndTick => None
    case _ => l.sweep
  }

  function Next(l: Locked, st: Step): Locked
    requires Can(l, st)
  {
    Locked(
      match Region(l, st) case Some(a) => Apply(l.s, a) case None => l.s,
      NextWriting(l, st), NextCalls(l, st), NextSweep(l, st),
      if st.Stall? then l.stalled + {st.sid} else if st.Resume? then l.stalled - {st.sid} else l.stalled)
  }

  predicate IsSchedule(l: Locked, steps: seq<Step>)
    decreases |steps|
  {
    steps != [] ==> Can(l, steps[0]) && IsSchedule(Next(l, steps[0]), steps[1..])
  }

  function After(l: Locked, steps: seq<Step>): Locked
    requires IsSchedule(l, steps)
    decreases |steps|
  {
    if steps == [] then l else After(Next(l, steps[0]), steps[1..])
  }

  /** The steps are those of the machine without mutexes, so what is proved of its runs holds here. */
  lemma {:induction false} SchedulesAreRuns(l: Locked, steps: seq<Step>) returns (run: seq<Action>)
    requires IsSchedule(l, steps)
    ensures IsRun(l.s, run) && Exec(l.s, run) == After(l, steps).s
    decreases |steps|
  {
    if steps == [] {
      run := [];
    } else {
      var rest := SchedulesAreRuns(Next(l, steps[0]), steps[1..]);
      match Region(l, steps[0])
      case None => run := rest;
      case Some(a) =>
        run := [a] + rest;
        assert run[1..] == rest;
    }
  }

  // ---- What every step keeps --------------------------------------------------------------

  ghost predicate WritingOk(l: Locked) {
    forall x <- l.writing ::
      x < |l.s.sessions| && InPhase(l.s, l.writing[x], Inserted) && l.s.handlers[l.writing[x]].session == x
  }

  ghost predicate CallsOk(l: Locked) {
    forall x <- l.calls ::
      x < |l.s.sessions| && l.s.sessions[x].reader.Reading? && (l.calls[x].AnswerCall? ==> l.s.sessions[x].wire != [])
  }

  ghost predicate SweepOk(l: Locked) {
    l.sweep.Some? ==>
      var sw := l.sweep.value;
      && sw.left <= l.s.nodes.Keys
      && (sw.at.Some? ==> sw.at.value in l.s.nodes && sw.at.value !in sw.left)
  }

  ghost predicate LockInv(l: Locked) {
    WritingOk(l) && CallsOk(l) && SweepOk(l)
  }

  /** What the steps do to a session that they are not about. */
  lemma SessionFrame(s: State, a: Action, x: nat)
    requires Enabled(s, a) && x < |s.sessions|
    ensures var n, n' := s.sessions[x], Apply(s, a).sessions[x];
            && x < |Apply(s, a).sessions|
            && (n'.reader == n.reader ||
                  ((a.ReaderTake? || a.ReaderSend? || a.ReaderExit? || a.Unregister?) && a.sid == x))
            && (n.wire != [] ==> n'.wire != [] || (a.ReaderTake? && a.sid == x))
            && (n'.closed == n.closed || (a.CloseConn? && a.sid == x)
                || (a.Prune? && exists id <- a.ids :: id in s.nodes && s.nodes[id] == x))
  {
  }

  lemma NodesFrame(s: State, a: Action)
    requires Enabled(s, a) && !a.Register? && !a.Unregister?
    ensures Apply(s, a).nodes == if a.Prune? then s.nodes - a.ids else s.nodes
  {
  }

  /** The steps of its own that a handler takes after inserting its waiter end its write. */
  lemma NotItsOwn(s: State, a: Action, rid: string)
    requires Enabled(s, a) && InPhase(s, rid, Inserted) && !a.Forward? && !a.FailForward?
    ensures !OwnStep(a, rid)
  {
  }

  lemma InsertedStays(s: State, a: Action, rid: string)
    requires Enabled(s, a) && InPhase(s, rid, Inserted) && !OwnStep(a, rid)
    ensures InPhase(Apply(s, a), rid, Inserted) && Apply(s, a).handlers[rid].session == s.handlers[rid].session
  {
    StepExtends(s, a);
    SessionFrame(s, a, s.handlers[rid].session);
    OthersDoNotDelay(s, a, rid);
  }

  lemma WritingKept(l: Locked, st: Step)
    requires WritingOk(l) && Can(l, st)
    ensures WritingOk(Next(l, st))
  {
    var l' := Next(l, st);
    forall x <- l'.writing
      ensures x < |l'.s.sessions| && InPhase(l'.s, l'.writing[x], Inserted)
      ensures l'.s.handlers[l'.writing[x]].session == x
    {
      WriterStays(l, st, x);
    }
  }

  lemma WriterStays(l: Locked, st: Step, x: nat)
    requires WritingOk(l) && Can(l, st) && x in NextWriting(l, st)
    ensures var s', rid := Next(l, st).s, NextWriting(l, st)[x];
            x < |s'.sessions| && InPhase(s', rid, Inserted) && s'.handlers[rid].session == x
  {
    if !st.BeginWrite? && Region(l, st).Some? {
      var a := Region(l, st).value;
      if !st.EndWrite? { NotItsOwn(l.s, a, l.writing[x]); }
      SessionFrame(l.s, a, x);
      InsertedStays(l.s, a, l.writing[x]);
    }
  }

  lemma CallsKept(l: Locked, st: Step)
    requires CallsOk(l) && Can(l, st)
    ensures CallsOk(Next(l, st))
  {
    var l' := Next(l, st);
    forall x <- l'.calls
      ensures x < |l'.s.sessions| && l'.s.sessions[x].reader.Reading?
      ensures l'.calls[x].AnswerCall? ==> l'.s.sessions[x].wire != []
    {
      CallStays(l, st, x);
    }
  }

  lemma CallStays(l: Locked, st: Step, x: nat)
    requires CallsOk(l) && Can(l, st) && x in NextCalls(l, st)
    ensures var s' := Next(l, st).s;
            && x < |s'.sessions| && s'.sessions[x].reader.Reading?
            && (NextCalls(l, st)[x].AnswerCall? ==> s'.sessions[x].wire != [])
  {
    if Region(l, st).Some? { SessionFrame(l.s, Region(l, st).value, x); }
  }

  lemma SweepKept(l: Locked, st: Step)
    requires SweepOk(l) && Can(l, st)
    ensures SweepOk(Next(l, st))
  {
    if Region(l, st).Some? && l.sweep.Some? { NodesFrame(l.s, Region(l, st).value); }
  }

  lemma LockInvKept(l: Locked, st: Step)
    requires LockInv(l) && Can(l, st)
    ensures LockInv(Next(l, st))
  {
    WritingKept(l, st);
    CallsKept(l, st);
    SweepKept(l, st);
  }

  lemma {:induction false} LockInvAlways(l: Locked, steps: seq<Step>)
    requires LockInv(l) && IsSchedule(l, steps)
    ensures LockInv(After(l, steps))
    decreases |steps|
  {
    if steps != [] {
      LockInvKept(l, steps[0]);
      LockInvAlways(Next(l, steps[0]), steps[1..]);
    }
  }

  lemma LockInvStart()
    ensures LockInv(START)
  {
  }
}
