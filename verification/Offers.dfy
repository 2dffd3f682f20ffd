/**
 The coordinator as a concurrent state machine.

 Every HTTP offer handler, every node session's read loop and the prune loop run at the same
 time.  They share the registry `nodes`, each session's `pending` map and each waiter's
 one-slot answer channel.  One `Action` is one region that the program executes under a lock
 (or one channel operation), so a run is any sequence of enabled actions.  In particular,
 taking a waiter out of `pending` and sending on its channel are two actions: a timeout may
 come between them.

 Request ids are fresh, as section 5.4 of RFC 9562 lets an application assume of random UUIDs.
 */
module Offers {

  datatype OfferMsg = OfferMsg(requestId: string, offer: string)

  datatype AnswerMsg = AnswerMsg(requestId: string, answer: string)

  /** An offer that a node worked on, and the answer it computed for it. */
  datatype Work = Work(msg: OfferMsg, answer: string)

  /** Where a session's goroutine is: blocked in ReadMessage, between removing a waiter from
      `pending` and sending on its channel, past the loop with the deferred unregister still
      to run, or finished. */
  datatype Reader = Reading | Holding(ans: AnswerMsg) | Leaving | Gone

  /** One WebSocket session: a `node` object together with its connection.  `delivered` are the
      offers written to the connection, `computed` what the peer did with them and `wire` the
      answers on their way back.  An honest peer runs handleCoordOffer; any other may send
      what it likes.  `closed` says that the coordinator closed the connection. */
  datatype Session = Session(
    id: string, services: seq<string>, lastSeen: real, pending: set<string>, reader: Reader,
    closed: bool, honest: bool, delivered: seq<OfferMsg>, computed: set<Work>, wire: seq<AnswerMsg>)

  /** An answer, and the session whose read loop put it on the channel. */
  datatype Delivery = Delivery(ans: AnswerMsg, via: nat)

  datatype Phase =
    | Found            // the node was looked up; nothing is inserted yet
    | Inserted         // the waiter is in `pending`; the offer is not written yet
    | Waiting          // blocked in the select
    | WriteFailed      // the write failed; the waiter is still to be deleted
    | TimingOut        // the timer won the select; the waiter is still to be deleted
    | Received(got: Delivery)  // the channel won the select; the exchange is still to be recorded
    | Answered(got: Delivery)  // returned the answer
    | TimedOut                 // returned 504
    | ForwardFailed            // returned 502

  /** An offer handler that found its node.  `ch` is the waiter's channel; `sends` counts the
      sends ever made on it. */
  datatype Handler = Handler(session: nat, offer: string, phase: Phase, ch: seq<Delivery>, sends: nat)

  datatype RegEvent =
    | Registered(id: string, sid: nat)
    | Unregistered(id: string, sid: nat)
    | Pruned(ids: set<string>)

  /** `handlers` is keyed by request id.  `found`, `timedOut` and `forwardFailed` count HTTP
      outcomes, `recorded` the calls of `sdp.record`; `log` is the history of `nodes`. */
  datatype State = State(
    nodes: map<string, nat>, sessions: seq<Session>, handlers: map<string, Handler>,
    found: nat, notFound: nat, recorded: nat, timedOut: nat, forwardFailed: nat,
    log: seq<RegEvent>)

  const INIT := State(map[], [], map[], 0, 0, 0, 0, 0, [])

  /** Seconds without a ping after which the prune loop drops a session. */
  const DROP_AFTER := 180.0

  datatype Action =
    | Register(id: string, services: seq<string>, honest: bool, now: real)
    | Ping(sid: nat, now: real)
    | NodeAnswer(sid: nat, k: nat, answer: string)
    | NodeSend(sid: nat, ans: AnswerMsg)
    | ReaderTake(sid: nat)
    | ReaderSend(sid: nat)
    | ReaderExit(sid: nat)
    | Unregister(sid: nat)
    | CloseConn(sid: nat)
    | Prune(ids: set<string>, now: real)
    | Lookup(nodeId: string, rid: string, offer: string)
    | Insert(rid: string)
    | Forward(rid: string)
    | FailForward(rid: string, reached: bool)
    | DropFailed(rid: string)
    | Timeout(rid: string)
    | DropTimedOut(rid: string)
    | Receive(rid: string)
    | Record(rid: string)

  predicate InPhase(s: State, rid: string, p: Phase) {
    HasSession(s, rid) && s.handlers[rid].phase == p
  }

  /** When an action can be taken, locks and slow writes apart: these are added in module Locks.
      A write to a closed connection fails, and nothing of it reaches the peer; a read may still
      yield what arrived before.  The prune loop drops stale entries, one or more at a time.
      ReaderSend has no condition on the channel being empty: that a full channel never blocks it
      is a theorem. */
  predicate Enabled(s: State, a: Action) {
    match a
    case Register(_, _, _, _) => true
    case Ping(sid, _) => sid < |s.sessions| && s.sessions[sid].reader.Reading?
    case NodeAnswer(sid, k, _) =>
      sid < |s.sessions| && s.sessions[sid].honest && k < |s.sessions[sid].delivered|
    case NodeSend(sid, _) => sid < |s.sessions| && !s.sessions[sid].honest
    case ReaderTake(sid) =>
      sid < |s.sessions| && s.sessions[sid].reader.Reading? && s.sessions[sid].wire != []
    case ReaderSend(sid) =>
      && sid < |s.sessions| && s.sessions[sid].reader.Holding?
      && s.sessions[sid].reader.ans.requestId in s.handlers
    case ReaderExit(sid) => sid < |s.sessions| && s.sessions[sid].reader.Reading?
    case Unregister(sid) => sid < |s.sessions| && s.sessions[sid].reader.Leaving?
    case CloseConn(sid) => sid < |s.sessions| && s.sessions[sid].reader.Gone?
    case Prune(ids, now) => (forall id <- s.nodes :: s.nodes[id] < |s.sessions|) && ids <= Stale(s, now)
    case Lookup(nodeId, rid, _) => rid !in s.handlers
    case Insert(rid) => InPhase(s, rid, Found)
    case Forward(rid) => InPhase(s, rid, Inserted) && !SessionOf(s, rid).closed
    case FailForward(rid, reached) => InPhase(s, rid, Inserted) && (reached ==> !SessionOf(s, rid).closed)
    case DropFailed(rid) => InPhase(s, rid, WriteFailed)
    case Timeout(rid) => InPhase(s, rid, Waiting)
    case DropTimedOut(rid) => InPhase(s, rid, TimingOut)
    case Receive(rid) => InPhase(s, rid, Waiting) && s.handlers[rid].ch != []
    case Record(rid) => rid in s.handlers && s.handlers[rid].phase.Received?
  }

  // ---- The effect of each action --------------------------------------------------------

  predicate HasSession(s: State, rid: string) {
    rid in s.handlers && s.handlers[rid].session < |s.sessions|
  }

  /** The session that handler `rid` found. */
  function SessionOf(s: State, rid: string): Session
    requires HasSession(s, rid)
  {
    s.sessions[s.handlers[rid].session]
  }

  function SetSession(s: State, sid: nat, n: Session): State
    requires sid < |s.sessions|
  {
    s.(sessions := s.sessions[sid := n])
  }

  function SetHandler(s: State, rid: string, h: Handler): State {
    s.(handlers := s.handlers[rid := h])
  }

  function SetPhase(s: State, rid: string, p: Phase): State
    requires rid in s.handlers
  {
    SetHandler(s, rid, s.handlers[rid].(phase := p))
  }

  /** A new session object, and its entry in `nodes` (replacing any other for the same id). */
  function AfterRegister(s: State, id: string, services: seq<string>, honest: bool, now: real): State {
    var n := Session(id, services, now, {}, Reading, false, honest, [], {}, []);
    s.(sessions := s.sessions + [n],
       nodes := s.nodes[id := |s.sessions|],
       log := s.log + [Registered(id, |s.sessions|)])
  }

  /** An honest peer answers an offer that reached it, copying its request id. */
  function AfterNodeAnswer(s: State, sid: nat, k: nat, answer: string): State
    requires sid < |s.sessions| && k < |s.sessions[sid].delivered|
  {
    var n := s.sessions[sid];
    var msg := n.delivered[k];
    SetSession(s, sid, n.(computed := n.computed + {Work(msg, answer)},
                          wire := n.wire + [AnswerMsg(msg.requestId, answer)]))
  }

  /** The read loop's locked region: look the waiter up and remove it. */
  function AfterReaderTake(s: State, sid: nat): State
    requires sid < |s.sessions| && s.sessions[sid].wire != []
  {
    var n := s.sessions[sid];
    var ans := n.wire[0];
    if ans.requestId in n.pending then
      SetSession(s, sid, n.(wire := n.wire[1..], pending := n.pending - {ans.requestId}, reader := Holding(ans)))
    else
      SetSession(s, sid, n.(wire := n.wire[1..]))
  }

  /** The send on the waiter's channel. */
  function AfterReaderSend(s: State, sid: nat): State
    requires sid < |s.sessions| && s.sessions[sid].reader.Holding?
    requires s.sessions[sid].reader.ans.requestId in s.handlers
  {
    var ans := s.sessions[sid].reader.ans;
    var h := s.handlers[ans.requestId];
    SetHandler(SetSession(s, sid, s.sessions[sid].(reader := Reading)), ans.requestId,
               h.(ch := h.ch + [Delivery(ans, sid)], sends := h.sends + 1))
  }

  /** The deferred removal, which is by id. */
  function AfterUnregister(s: State, sid: nat): State
    requires sid < |s.sessions|
  {
    var n := s.sessions[sid];
    SetSession(s, sid, n.(reader := Gone)).(nodes := s.nodes - {n.id}, log := s.log + [Unregistered(n.id, sid)])
  }

  function Stale(s: State, now: real): set<string>
    requires forall id <- s.nodes :: s.nodes[id] < |s.sessions|
  {
    set id | id in s.nodes && s.sessions[s.nodes[id]].lastSeen < now - DROP_AFTER
  }

  /** Session `i` after the entries of `ids` are dropped: theirs have their connections closed. */
  function Closing(s: State, i: nat, ids: set<string>): Session
    requires i < |s.sessions|
  {
    if exists id <- ids :: id in s.nodes && s.nodes[id] == i then s.sessions[i].(closed := true) else s.sessions[i]
  }

  function AfterPrune(s: State, ids: set<string>): State {
    s.(nodes := s.nodes - ids,
       sessions := seq(|s.sessions|, i requires 0 <= i < |s.sessions| => Closing(s, i, ids)),
       log := s.log + [Pruned(ids)])
  }

  function AfterLookup(s: State, nodeId: string, rid: string, offer: string): State {
    if nodeId in s.nodes then
      SetHandler(s.(found := s.found + 1), rid, Handler(s.nodes[nodeId], offer, Found, [], 0))
    else
      s.(notFound := s.notFound + 1)
  }

  function AfterInsert(s: State, rid: string): State
    requires HasSession(s, rid)
  {
    var sid := s.handlers[rid].session;
    var n := s.sessions[sid];
    SetPhase(SetSession(s, sid, n.(pending := n.pending + {rid})), rid, Inserted)
  }

  /** The offer of handler `rid` reaches the peer of its session. */
  function Written(s: State, rid: string): State
    requires HasSession(s, rid)
  {
    var sid := s.handlers[rid].session;
    var n := s.sessions[sid];
    SetSession(s, sid, n.(delivered := n.delivered + [OfferMsg(rid, s.handlers[rid].offer)]))
  }

  /** A failed write may or may not have reached the peer. */
  function AfterFailForward(s: State, rid: string, reached: bool): State
    requires HasSession(s, rid)
  {
    SetPhase(if reached then Written(s, rid) else s, rid, WriteFailed)
  }

  /** Remove the waiter `rid` from the pending map of its handler's session, and return. */
  function AfterDrop(s: State, rid: string, p: Phase): State
    requires HasSession(s, rid)
  {
    var sid := s.handlers[rid].session;
    var n := s.sessions[sid];
    SetPhase(SetSession(s, sid, n.(pending := n.pending - {rid})), rid, p)
  }

  function AfterDropFailed(s: State, rid: string): State
    requires HasSession(s, rid)
  {
    AfterDrop(s, rid, ForwardFailed).(forwardFailed := s.forwardFailed + 1)
  }

  function AfterDropTimedOut(s: State, rid: string): State
    requires HasSession(s, rid)
  {
    AfterDrop(s, rid, TimedOut).(timedOut := s.timedOut + 1)
  }

  function AfterReceive(s: State, rid: string): State
    requires rid in s.handlers && s.handlers[rid].ch != []
  {
    var h := s.handlers[rid];
    SetHandler(s, rid, h.(ch := h.ch[1..], phase := Received(h.ch[0])))
  }

  function AfterRecord(s: State, rid: string): State
    requires rid in s.handlers && s.handlers[rid].phase.Received?
  {
    SetPhase(s, rid, Answered(s.handlers[rid].phase.got)).(recorded := s.recorded + 1)
  }

  function Apply(s: State, a: Action): State
    requires Enabled(s, a)
  {
    match a
    case Register(id, services, honest, now) => AfterRegister(s, id, services, honest, now)
    case Ping(sid, now) => SetSession(s, sid, s.sessions[sid].(lastSeen := now))
    case NodeAnswer(sid, k, answer) => AfterNodeAnswer(s, sid, k, answer)
    case NodeSend(sid, ans) => SetSession(s, sid, s.sessions[sid].(wire := s.sessions[sid].wire + [ans]))
    case ReaderTake(sid) => AfterReaderTake(s, sid)
    case ReaderSend(sid) => AfterReaderSend(s, sid)
    case ReaderExit(sid) => SetSession(s, sid, s.sessions[sid].(reader := Leaving))
    case Unregister(sid) => AfterUnregister(s, sid)
    case CloseConn(sid) => SetSession(s, sid, s.sessions[sid].(closed := true))
    case Prune(ids, _) => AfterPrune(s, ids)
    case Lookup(nodeId, rid, offer) => AfterLookup(s, nodeId, rid, offer)
    case Insert(rid) => AfterInsert(s, rid)
    case Forward(rid) => SetPhase(Written(s, rid), rid, Waiting)
    case FailForward(rid, reached) => AfterFailForward(s, rid, reached)
    case DropFailed(rid) => AfterDropFailed(s, rid)
    case Timeout(rid) => SetPhase(s, rid, TimingOut)
    case DropTimedOut(rid) => AfterDropTimedOut(s, rid)
    case Receive(rid) => AfterReceive(s, rid)
    case Record(rid) => AfterRecord(s, rid)
  }

  /** `run` is an execution: each action is enabled where it is taken. */
  predicate IsRun(s: State, run: seq<Action>)
    decreases |run|
  {
    run != [] ==> Enabled(s, run[0]) && IsRun(Apply(s, run[0]), run[1..])
  }

  function Exec(s: State, run: seq<Action>): State
    requires IsRun(s, run)
    decreases |run|
  {
    if run == [] then s else Exec(Apply(s, run[0]), run[1..])
  }
}
