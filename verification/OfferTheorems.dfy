/**
 What holds of the coordinator in every interleaving.
 */
module OfferTheorems {
  import opened Offers
  import opened OfferInvariants

  // ---- Sends and answers ----------------------------------------------------------------

  /** Whenever a read loop is about to send, the channel is empty and nothing was ever sent on
      it, so the send goes through at once: no timeout in the gap can make it block. */
  lemma SendNeverBlocks(run: seq<Action>, sid: nat)
    requires IsRun(INIT, run)
    requires var s := Exec(INIT, run); sid < |s.sessions| && s.sessions[sid].reader.Holding?
    ensures var s := Exec(INIT, run);
            && Enabled(s, ReaderSend(sid))
            && s.handlers[s.sessions[sid].reader.ans.requestId].ch == []
            && s.handlers[s.sessions[sid].reader.ans.requestId].sends == 0
  {
    InvInit();
    InvAlways(INIT, run);
    SendFindsRoom(Exec(INIT, run), sid);
  }

  lemma AtMostOneSend(run: seq<Action>, rid: string)
    requires IsRun(INIT, run) && rid in Exec(INIT, run).handlers
    ensures var h := Exec(INIT, run).handlers[rid]; |h.ch| <= h.sends <= 1
  {
    var s := Exec(INIT, run);
    InvInit();
    InvAlways(INIT, run);
    var h := s.handlers[rid];
    assert HandlerOk(h, s.sessions[h.session], rid);
  }

  /** The answer a handler returns bears its own request id and came from the session its offer
      was written to; an honest peer computed it for this very offer. */
  lemma AnswersNeverCross(run: seq<Action>, rid: string)
    requires IsRun(INIT, run) && rid in Exec(INIT, run).handlers
    requires GotAnswer(Exec(INIT, run).handlers[rid].phase)
    ensures var s := Exec(INIT, run);
            var h := s.handlers[rid];
            && h.phase.got.ans.requestId == rid && h.phase.got.via == h.session < |s.sessions|
            && (s.sessions[h.session].honest ==>
                  Work(OfferMsg(rid, h.offer), h.phase.got.ans.answer) in s.sessions[h.session].computed)
  {
    var s := Exec(INIT, run);
    InvInit();
    InvAlways(INIT, run);
    var h := s.handlers[rid];
    assert HandlerOk(h, s.sessions[h.session], rid) && HandlerGenuine(s.handlers, h, s.sessions[h.session]);
  }

  /** Every offer written to a session's connection is the offer of a handler that found that
      session, under that handler's own id. */
  lemma OffersNeverCross(run: seq<Action>, sid: nat, i: nat)
    requires IsRun(INIT, run) && sid < |Exec(INIT, run).sessions|
    requires i < |Exec(INIT, run).sessions[sid].delivered|
    ensures var hs, m := Exec(INIT, run).handlers, Exec(INIT, run).sessions[sid].delivered[i];
            m.requestId in hs && hs[m.requestId].session == sid && hs[m.requestId].offer == m.offer
  {
    InvInit();
    InvAlways(INIT, run);
    var s := Exec(INIT, run);
    assert SessionGenuine(s.handlers, s.sessions[sid], sid);
    assert s.sessions[sid].delivered[i] in s.sessions[sid].delivered;
  }

  /** No request id is written twice, on one connection or on two. */
  lemma OffersWrittenOnce(run: seq<Action>, sid1: nat, i: nat, sid2: nat, j: nat)
    requires IsRun(INIT, run) && sid1 < |Exec(INIT, run).sessions| && sid2 < |Exec(INIT, run).sessions|
    requires i < |Exec(INIT, run).sessions[sid1].delivered| && j < |Exec(INIT, run).sessions[sid2].delivered|
    requires var ss := Exec(INIT, run).sessions;
             ss[sid1].delivered[i].requestId == ss[sid2].delivered[j].requestId
    ensures sid1 == sid2 && i == j
  {
    OffersNeverCross(run, sid1, i);
    OffersNeverCross(run, sid2, j);
    InvInit();
    InvAlways(INIT, run);
    var s := Exec(INIT, run);
    assert SessionGenuine(s.handlers, s.sessions[sid1], sid1);
  }

  /** By the definition of the steps, a closed connection stays closed and is not written to. */
  lemma ClosedStep(s: State, a: Action, sid: nat)
    requires Enabled(s, a) && sid < |s.sessions| && s.sessions[sid].closed
    ensures var s' := Apply(s, a);
            sid < |s'.sessions| && s'.sessions[sid].closed && s'.sessions[sid].delivered == s.sessions[sid].delivered
  {
    if OfHandler(a) { HandlerAtClosed(s, a, sid); }
  }

  lemma HandlerAtClosed(s: State, a: Action, sid: nat)
    requires Enabled(s, a) && sid < |s.sessions| && s.sessions[sid].closed && OfHandler(a)
    ensures var s' := Apply(s, a);
            sid < |s'.sessions| && s'.sessions[sid].closed && s'.sessions[sid].delivered == s.sessions[sid].delivered
  {
  }

  lemma {:induction false} ClosedGetsNoOffers(s: State, run: seq<Action>, sid: nat)
    requires IsRun(s, run) && sid < |s.sessions| && s.sessions[sid].closed
    ensures var s' := Exec(s, run);
            && sid < |s'.sessions| && s'.sessions[sid].delivered == s.sessions[sid].delivered
            && forall rid <- s'.handlers :: s'.handlers[rid].session == sid ==> !Enabled(s', Forward(rid))
    decreases |run|
  {
    if run != [] {
      ClosedStep(s, run[0], sid);
      ClosedGetsNoOffers(Apply(s, run[0]), run[1..], sid);
    }
  }

  /** A handler that waits, or waited, for an answer had its offer written to its session. */
  lemma WaitsAfterWriting(run: seq<Action>, rid: string)
    requires IsRun(INIT, run) && rid in Exec(INIT, run).handlers && Forwarded(Exec(INIT, run).handlers[rid].phase)
    ensures var h := Exec(INIT, run).handlers[rid];
            && h.session < |Exec(INIT, run).sessions|
            && OfferMsg(rid, h.offer) in Exec(INIT, run).sessions[h.session].delivered
  {
    InvInit();
    InvAlways(INIT, run);
    var s := Exec(INIT, run);
    var h := s.handlers[rid];
    var n := s.sessions[h.session];
    assert HandlerOk(h, n, rid) && SessionGenuine(s.handlers, n, h.session);
    var m :| m in n.delivered && m.requestId == rid;
    assert m == OfferMsg(rid, h.offer);
  }

  /** A lookup finds a session that has the requested id and has not unregistered, and whose
      connection the coordinator has not closed. */
  lemma LookupFindsLiveSession(run: seq<Action>, nodeId: string, rid: string, offer: string)
    requires IsRun(INIT, run) && Enabled(Exec(INIT, run), Lookup(nodeId, rid, offer))
    requires nodeId in Exec(INIT, run).nodes
    ensures var s := Apply(Exec(INIT, run), Lookup(nodeId, rid, offer));
            && rid in s.handlers && s.handlers[rid].offer == offer && s.handlers[rid].session < |s.sessions|
            && s.sessions[s.handlers[rid].session].id == nodeId
            && !s.sessions[s.handlers[rid].session].reader.Gone? && !s.sessions[s.handlers[rid].session].closed
  {
    InvInit();
    InvAlways(INIT, run);
    assert EntryOk(Exec(INIT, run), nodeId);
  }

  lemma StepExtends(s: State, a: Action)
    requires Enabled(s, a)
    ensures Extends(s.handlers, Apply(s, a).handlers)
  {
  }

  /** A handler keeps the session object that its lookup found, whatever happens to the registry. */
  lemma {:induction false} SessionIsFixed(s: State, run: seq<Action>)
    requires IsRun(s, run)
    ensures Extends(s.handlers, Exec(s, run).handlers)
    decreases |run|
  {
    if run != [] {
      StepExtends(s, run[0]);
      SessionIsFixed(Apply(s, run[0]), run[1..]);
    }
  }

  /** The answer of an honest peer arrives: while its handler waits, and no other answer is on the
      way, these five steps return it to the client. */
  lemma AnswerArrives(run: seq<Action>, rid: string, k: nat, answer: string) returns (steps: seq<Action>)
    requires IsRun(INIT, run) && InPhase(Exec(INIT, run), rid, Waiting)
    requires var s := Exec(INIT, run); var sid := s.handlers[rid].session;
             && s.sessions[sid].honest && s.sessions[sid].reader.Reading? && s.sessions[sid].wire == []
             && s.handlers[rid].sends == 0
             && k < |s.sessions[sid].delivered| && s.sessions[sid].delivered[k].requestId == rid
    ensures var s := Exec(INIT, run); var sid := s.handlers[rid].session;
            && IsRun(s, steps) && rid in Exec(s, steps).handlers
            && Exec(s, steps).handlers[rid].phase == Answered(Delivery(AnswerMsg(rid, answer), sid))
  {
    var s := Exec(INIT, run);
    var sid := s.handlers[rid].session;
    InvInit();
    InvAlways(INIT, run);
    IsPending(s, rid);
    steps := Answering(s, rid, k, answer);
  }

  lemma Answering(s: State, rid: string, k: nat, answer: string) returns (steps: seq<Action>)
    requires InPhase(s, rid, Waiting) && s.handlers[rid].ch == []
    requires var n := s.sessions[s.handlers[rid].session];
             && n.honest && n.reader.Reading? && n.wire == [] && rid in n.pending
             && k < |n.delivered| && n.delivered[k].requestId == rid
    ensures IsRun(s, steps) && rid in Exec(s, steps).handlers
    ensures Exec(s, steps).handlers[rid].phase == Answered(Delivery(AnswerMsg(rid, answer), s.handlers[rid].session))
  {
    var sid := s.handlers[rid].session;
    var s1 := Apply(s, NodeAnswer(sid, k, answer));
    var s2 := Apply(s1, ReaderTake(sid));
    var rest := GoesThrough(s2, sid, rid, AnswerMsg(rid, answer));
    var four := [ReaderTake(sid)] + rest;
    assert four[1..] == rest;
    steps := [NodeAnswer(sid, k, answer)] + four;
    assert steps[1..] == four;
  }

  lemma IsPending(s: State, rid: string)
    requires Ownership(s) && InPhase(s, rid, Waiting) && s.handlers[rid].sends == 0
    requires s.sessions[s.handlers[rid].session].reader.Reading?
    ensures rid in s.sessions[s.handlers[rid].session].pending && s.handlers[rid].ch == []
  {
    assert HandlerOk(s.handlers[rid], s.sessions[s.handlers[rid].session], rid);
  }

  /** From the reader's hand through the channel. */
  lemma GoesThrough(s: State, sid: nat, rid: string, ans: AnswerMsg) returns (steps: seq<Action>)
    requires InPhase(s, rid, Waiting) && s.handlers[rid].session == sid && s.handlers[rid].ch == []
    requires s.sessions[sid].reader == Holding(ans) && ans.requestId == rid
    ensures IsRun(s, steps) && rid in Exec(s, steps).handlers
    ensures Exec(s, steps).handlers[rid].phase == Answered(Delivery(ans, sid))
  {
    var s1 := Apply(s, ReaderSend(sid));
    var s2 := Apply(s1, Receive(rid));
    var s3 := Apply(s2, Record(rid));
    assert IsRun(s3, []);
    assert [Record(rid)][1..] == [] && IsRun(s2, [Record(rid)]) && Exec(s2, [Record(rid)]) == s3;
    var two := [Receive(rid), Record(rid)];
    assert two[1..] == [Record(rid)] && IsRun(s1, two) && Exec(s1, two) == s3;
    steps := [ReaderSend(sid), Receive(rid), Record(rid)];
    assert steps[1..] == two;
  }

  /** A peer that is not honest may send anything, and a write that fails may have reached it. */
  lemma PeersMayDoAnything(s: State, sid: nat, ans: AnswerMsg, rid: string)
    requires sid < |s.sessions| && !s.sessions[sid].honest
    requires InPhase(s, rid, Inserted) && s.handlers[rid].session == sid && !s.sessions[sid].closed
    ensures Enabled(s, NodeSend(sid, ans)) && ans in Apply(s, NodeSend(sid, ans)).sessions[sid].wire
    ensures Enabled(s, FailForward(rid, true))
    ensures OfferMsg(rid, s.handlers[rid].offer) in Apply(s, FailForward(rid, true)).sessions[sid].delivered
  {
    assert Apply(s, NodeSend(sid, ans)).sessions[sid].wire == s.sessions[sid].wire + [ans];
  }

  // ---- Ownership ------------------------------------------------------------------------

  /** Between insertion and return the waiter is in exactly one of its three places; before
      insertion and after taking the answer it is in none. */
  lemma ExactlyOnePlace(run: seq<Action>, rid: string)
    requires IsRun(INIT, run) && rid in Exec(INIT, run).handlers
    ensures var s := Exec(INIT, run);
            var h := s.handlers[rid];
            && h.session < |s.sessions|
            && (InTransit(h.phase) ==> Places(h, s.sessions[h.session], rid) == 1)
            && (h.phase.Found? || GotAnswer(h.phase) ==> Places(h, s.sessions[h.session], rid) == 0)
  {
    var s := Exec(INIT, run);
    InvInit();
    InvAlways(INIT, run);
    var h := s.handlers[rid];
    assert HandlerOk(h, s.sessions[h.session], rid);
  }

  /** Once a handler has returned, by answer, write error or timeout, no pending map of any
      session holds its id. */
  lemma NoPendingLeak(run: seq<Action>, rid: string, sid: nat)
    requires IsRun(INIT, run) && rid in Exec(INIT, run).handlers
    requires Returned(Exec(INIT, run).handlers[rid].phase) && sid < |Exec(INIT, run).sessions|
    ensures rid !in Exec(INIT, run).sessions[sid].pending
  {
    var s := Exec(INIT, run);
    InvInit();
    InvAlways(INIT, run);
    var h := s.handlers[rid];
    assert SessionOk(s.handlers, s.sessions[sid], sid);
    assert HandlerOk(h, s.sessions[h.session], rid);
  }

  // ---- Conservation ---------------------------------------------------------------------

  lemma OutcomesPartition(hs: map<string, Handler>)
    ensures |hs| == |Ids(hs, InFlight)| + |Ids(hs, WasAnswered)| + |Ids(hs, WasTimedOut)| + |Ids(hs, WasNotForwarded)|
  {
    var a, b, c, d := Ids(hs, InFlight), Ids(hs, WasAnswered), Ids(hs, WasTimedOut), Ids(hs, WasNotForwarded);
    assert hs.Keys == a + b + c + d;
    assert a !! b && (a + b) !! c && (a + b + c) !! d;
  }

  /** Every offer that found its node is answered, timed out, failed to be forwarded or still in
      flight; and there is one `sdp.record` for each answered one. */
  lemma Conservation(run: seq<Action>)
    requires IsRun(INIT, run)
    ensures var s := Exec(INIT, run);
            && s.found == s.recorded + s.timedOut + s.forwardFailed + |Ids(s.handlers, InFlight)|
            && s.recorded == |Ids(s.handlers, WasAnswered)|
            && s.timedOut == |Ids(s.handlers, WasTimedOut)|
            && s.forwardFailed == |Ids(s.handlers, WasNotForwarded)|
  {
    InvInit();
    InvAlways(INIT, run);
    OutcomesPartition(Exec(INIT, run).handlers);
  }

  /** A lookup of an id that is not registered makes no handler. */
  lemma LookupMisses(s: State, nodeId: string, rid: string, offer: string)
    requires Enabled(s, Lookup(nodeId, rid, offer)) && nodeId !in s.nodes
    ensures Apply(s, Lookup(nodeId, rid, offer)) == s.(notFound := s.notFound + 1)
  {
  }

  function Lookups(run: seq<Action>): nat {
    if run == [] then 0 else (if run[0].Lookup? then 1 else 0) + Lookups(run[1..])
  }

  lemma LookupCounted(s: State, a: Action)
    requires Enabled(s, a)
    ensures Apply(s, a).found + Apply(s, a).notFound == s.found + s.notFound + if a.Lookup? then 1 else 0
  {
  }

  /** Every offer that is looked up is counted, as found or as not found. */
  lemma {:induction false} LookupsCounted(s: State, run: seq<Action>)
    requires IsRun(s, run)
    ensures Exec(s, run).found + Exec(s, run).notFound == s.found + s.notFound + Lookups(run)
    decreases |run|
  {
    if run != [] {
      LookupCounted(s, run[0]);
      LookupsCounted(Apply(s, run[0]), run[1..]);
    }
  }

  /** An answer is dropped, and nothing but the wire changes, exactly if its id is not in its
      session's `pending`. */
  lemma AnswerIsDropped(s: State, sid: nat)
    requires Enabled(s, ReaderTake(sid))
    ensures var n := s.sessions[sid];
            n.wire[0].requestId !in n.pending <==>
            Apply(s, ReaderTake(sid)) == SetSession(s, sid, n.(wire := n.wire[1..]))
  {
    var n := s.sessions[sid];
    if n.wire[0].requestId in n.pending {
      assert Apply(s, ReaderTake(sid)).sessions[sid].reader.Holding?;
    }
  }

  /** That is, unless a handler of this very session waits for it for the first time: unknown,
      repeated and expired ids, and those of other sessions' requests, are dropped. */
  lemma StrayAnswerIsDropped(s: State, sid: nat)
    requires Inv(s) && Enabled(s, ReaderTake(sid))
    ensures var n := s.sessions[sid];
            var rid := n.wire[0].requestId;
            Apply(s, ReaderTake(sid)) == SetSession(s, sid, n.(wire := n.wire[1..])) <==>
            !(rid in s.handlers && s.handlers[rid].session == sid
              && InTransit(s.handlers[rid].phase) && s.handlers[rid].sends == 0)
  {
    var rid := s.sessions[sid].wire[0].requestId;
    AnswerIsDropped(s, sid);
    assert SessionOk(s.handlers, s.sessions[sid], sid);
    if rid in s.handlers && s.handlers[rid].session == sid {
      assert HandlerOk(s.handlers[rid], s.sessions[sid], rid);
    }
  }

  // ---- Progress -------------------------------------------------------------------------

  /** How many steps of its own a handler has still to take. */
  function StepsLeft(p: Phase): nat {
    match p
    case Found => 4
    case Inserted => 3
    case Waiting => 2
    case WriteFailed => 1
    case TimingOut => 1
    case Received(_) => 1
    case Answered(_) => 0
    case TimedOut => 0
    case ForwardFailed => 0
  }

  ghost predicate OwnStep(a: Action, rid: string) {
    OfHandler(a) && a.rid == rid
  }

  ghost function OwnSteps(run: seq<Action>, rid: string): nat {
    if run == [] then 0 else (if OwnStep(run[0], rid) then 1 else 0) + OwnSteps(run[1..], rid)
  }

  lemma OthersDoNotDelay(s: State, a: Action, rid: string)
    requires Enabled(s, a) && rid in s.handlers && !OwnStep(a, rid)
    ensures rid in Apply(s, a).handlers && Apply(s, a).handlers[rid].phase == s.handlers[rid].phase
  {
  }

  /** Every step of its own takes a handler closer to its return, and nobody else moves it back. */
  lemma StepsLeftFall(s: State, a: Action, rid: string)
    requires Enabled(s, a) && rid in s.handlers
    ensures var s' := Apply(s, a);
            && rid in s'.handlers
            && StepsLeft(s'.handlers[rid].phase) + (if OwnStep(a, rid) then 1 else 0)
               <= StepsLeft(s.handlers[rid].phase)
  {
    if !OwnStep(a, rid) { OthersDoNotDelay(s, a, rid); }
  }

  /** In every run, whatever else is scheduled in between, a handler takes at most as many steps
      as it has left, so at most four after its lookup. */
  lemma {:induction false} OwnStepsBounded(s: State, run: seq<Action>, rid: string)
    requires IsRun(s, run) && rid in s.handlers
    ensures rid in Exec(s, run).handlers
    ensures OwnSteps(run, rid) + StepsLeft(Exec(s, run).handlers[rid].phase) <= StepsLeft(s.handlers[rid].phase) <= 4
    decreases |run|
  {
    if run != [] {
      StepsLeftFall(s, run[0], rid);
      OwnStepsBounded(Apply(s, run[0]), run[1..], rid);
    }
  }

  // ---- Reachable states -----------------------------------------------------------------

  ghost predicate Reachable(s: State) {
    exists run: seq<Action> :: IsRun(INIT, run) && Exec(INIT, run) == s
  }

  lemma {:induction false} RunThenStep(s: State, run: seq<Action>, a: Action)
    requires IsRun(s, run) && Enabled(Exec(s, run), a)
    ensures IsRun(s, run + [a]) && Exec(s, run + [a]) == Apply(Exec(s, run), a)
    decreases |run|
  {
    if run == [] {
      assert [a][1..] == [];
      assert IsRun(Apply(s, a), []);
    } else {
      RunThenStep(Apply(s, run[0]), run[1..], a);
      assert (run + [a])[1..] == run[1..] + [a];
    }
  }

  lemma ReachableStep(s: State, a: Action)
    requires Reachable(s) && Enabled(s, a)
    ensures Reachable(Apply(s, a))
  {
    var run :| IsRun(INIT, run) && Exec(INIT, run) == s;
    RunThenStep(INIT, run, a);
  }

  lemma ReachableInv(s: State)
    requires Reachable(s)
    ensures Inv(s)
  {
    var run :| IsRun(INIT, run) && Exec(INIT, run) == s;
    InvInit();
    InvAlways(INIT, run);
  }
}
