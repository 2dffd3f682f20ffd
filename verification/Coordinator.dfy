/**
 The coordinator's objects: sessions with their pending maps, waiters with their one-slot
 channels, and the registry.

 Each method is one locked region (or one channel operation) of a goroutine, on the real
 fields.  A ghost `model` follows along: every method takes one step of the state
 machine of module Offers (and the prune loop one for each entry it drops), so whatever holds
 in all runs of that machine holds of these objects under every scheduling of the methods.
 */
module CoordinatorServer {
  import opened Offers
  import opened OfferInvariants
  import opened OfferTheorems
  import opened Ewma
  import Sorting
  import ServiceIndex

  /** A waiter.  `ch` is the buffer of its channel, which has room for one answer. */
  class PendingOffer {
    ghost const rid: string
    var ch: seq<AnswerMsg>

    constructor (ghost rid: string)
      ensures ch == [] && this.rid == rid
    {
      this.rid := rid;
      ch := [];
    }
  }

  /** A registered session.  `sid` is its index in the model. */
  class Node {
    ghost const sid: nat
    const id: string
    const services: seq<string>
    var lastSeen: real
    var pending: map<string, PendingOffer>
    var connClosed: bool

    constructor (ghost sid: nat, id: string, services: seq<string>, now: real)
      ensures this.sid == sid && this.id == id && this.services == services && lastSeen == now
      ensures pending == map[] && !connClosed
    {
      this.sid := sid;
      this.id := id;
      this.services := services;
      lastSeen := now;
      pending := map[];
      connClosed := false;
    }

    /** Look a waiter up and delete it. */
    method Remove(requestId: string) returns (p: PendingOffer?)
      modifies this`pending
      ensures pending == old(pending) - {requestId}
      ensures p == if requestId in old(pending) then old(pending)[requestId] else null
    {
      p := null;
      if requestId in pending {
        p := pending[requestId];
        pending := pending - {requestId};
      }
    }
  }

  /** The answers in a channel of the model. */
  ghost function Answers(ds: seq<Delivery>): seq<AnswerMsg> {
    seq(|ds|, i requires 0 <= i < |ds| => ds[i].ans)
  }

  // ---- Steps of the model ---------------------------------------------------------------

  /** The two agree on what the objects hold. */
  ghost predicate SameFields(n: Session, n': Session) {
    && n'.id == n.id && n'.services == n.services && n'.lastSeen == n.lastSeen
    && n'.pending == n.pending && n'.closed == n.closed
  }

  /** The handler of request `r` has made its waiter. */
  ghost predicate HasWaiter(hs: map<string, Handler>, r: string) {
    r in hs && !hs[r].phase.Found?
  }

  ghost predicate SameWaiter(hs: map<string, Handler>, hs': map<string, Handler>, r: string) {
    (HasWaiter(hs', r) <==> HasWaiter(hs, r)) && (HasWaiter(hs, r) ==> hs'[r].ch == hs[r].ch)
  }

  /** What a step may touch: one session (if the index is one) and some waiters. */
  datatype Scope = Scope(sid: nat, rids: set<string>)

  ghost function Nothing(s: State): Scope {
    Scope(|s.sessions|, {})
  }

  /** The scope aside, nothing changed that the objects hold. */
  ghost predicate Changes(s: State, s': State, sc: Scope) {
    && s'.nodes == s.nodes && |s'.sessions| == |s.sessions|
    && (forall i: nat :: i < |s.sessions| && i != sc.sid ==> SameFields(s.sessions[i], s'.sessions[i]))
    && (forall r: string :: r !in sc.rids ==> SameWaiter(s.handlers, s'.handlers, r))
  }

  /** The step leads to a reachable state, and changes no more than that. */
  ghost predicate Leads(s: State, s': State, sc: Scope) {
    Reachable(s') && s'.recorded == s.recorded && Changes(s, s', sc)
  }

  lemma HandHasWaiter(s: State, sid: nat)
    requires Reachable(s) && sid < |s.sessions| && s.sessions[sid].reader.Holding?
    ensures var rid := s.sessions[sid].reader.ans.requestId;
            HasWaiter(s.handlers, rid) && s.handlers[rid].ch == []
  {
    ReachableInv(s);
    SendFindsRoom(s, sid);
    var rid := s.sessions[sid].reader.ans.requestId;
    assert HandlerOk(s.handlers[rid], s.sessions[sid], rid) && InHand(s.sessions[sid], rid);
  }

  lemma ChannelIs(s: State, rid: string)
    requires Reachable(s) && rid in s.handlers
    ensures s.handlers[rid].phase.Found? ==> s.handlers[rid].ch == []
    ensures |s.handlers[rid].ch| <= 1 && forall d <- s.handlers[rid].ch :: d.ans.requestId == rid
  {
    ReachableInv(s);
    var h := s.handlers[rid];
    assert HandlerOk(h, s.sessions[h.session], rid);
  }

  lemma SendLeads(s: State, sid: nat)
    requires Reachable(s) && sid < |s.sessions| && s.sessions[sid].reader.Holding?
    ensures var ans := s.sessions[sid].reader.ans;
            && HasWaiter(s.handlers, ans.requestId) && s.handlers[ans.requestId].ch == []
            && Leads(s, AfterReaderSend(s, sid), Scope(|s.sessions|, {ans.requestId}))
            && HasWaiter(AfterReaderSend(s, sid).handlers, ans.requestId)
            && AfterReaderSend(s, sid).handlers[ans.requestId].ch == [Delivery(ans, sid)]
  {
    HandHasWaiter(s, sid);
    ReachableStep(s, ReaderSend(sid));
  }

  lemma TakeLeads(s: State, sid: nat)
    requires Reachable(s) && Enabled(s, ReaderTake(sid))
    ensures var s', n := AfterReaderTake(s, sid), s.sessions[sid];
            && Leads(s, s', Scope(sid, {}))
            && s'.sessions[sid] == n.(pending := n.pending - {n.wire[0].requestId}, wire := n.wire[1..],
                                      reader := s'.sessions[sid].reader)
  {
    ReachableStep(s, ReaderTake(sid));
  }

  lemma LookupLeads(s: State, nodeId: string, rid: string, offer: string)
    requires Reachable(s) && rid !in s.handlers
    ensures Leads(s, AfterLookup(s, nodeId, rid, offer), Nothing(s))
  {
    ReachableStep(s, Lookup(nodeId, rid, offer));
  }

  lemma InsertLeads(s: State, rid: string)
    requires Reachable(s) && InPhase(s, rid, Found)
    ensures var s', sid := AfterInsert(s, rid), s.handlers[rid].session;
            && Leads(s, s', Scope(sid, {rid}))
            && s'.sessions[sid] == s.sessions[sid].(pending := s.sessions[sid].pending + {rid})
            && HasWaiter(s'.handlers, rid) && s'.handlers[rid].ch == []
  {
    ReachableStep(s, Insert(rid));
    ChannelIs(s, rid);
  }

  /** The model's step for deleting a waiter on either path. */
  ghost function Dropped(s: State, rid: string): State
    requires HasSession(s, rid)
  {
    if s.handlers[rid].phase.WriteFailed? then AfterDropFailed(s, rid) else AfterDropTimedOut(s, rid)
  }

  lemma DropLeads(s: State, rid: string)
    requires Reachable(s) && (InPhase(s, rid, WriteFailed) || InPhase(s, rid, TimingOut))
    ensures var s', sid := Dropped(s, rid), s.handlers[rid].session;
            && Leads(s, s', Scope(sid, {}))
            && s'.sessions[sid] == s.sessions[sid].(pending := s.sessions[sid].pending - {rid})
  {
    ReachableStep(s, if s.handlers[rid].phase.WriteFailed? then DropFailed(rid) else DropTimedOut(rid));
  }

  lemma ReceiveLeads(s: State, rid: string)
    requires Reachable(s) && InPhase(s, rid, Waiting) && s.handlers[rid].ch != []
    ensures Leads(s, AfterReceive(s, rid), Scope(|s.sessions|, {rid}))
    ensures |s.handlers[rid].ch| == 1 && s.handlers[rid].ch[0].ans.requestId == rid
    ensures HasWaiter(AfterReceive(s, rid).handlers, rid) && AfterReceive(s, rid).handlers[rid].ch == []
  {
    ReachableStep(s, Receive(rid));
    ChannelIs(s, rid);
    assert s.handlers[rid].ch[0] in s.handlers[rid].ch;
  }

  lemma RecordLeads(s: State, rid: string)
    requires Reachable(s) && Enabled(s, Record(rid))
    ensures var s' := AfterRecord(s, rid);
            Reachable(s') && s'.recorded == s.recorded + 1 && Changes(s, s', Nothing(s))
  {
    ReachableStep(s, Record(rid));
  }

  lemma PingLeads(s: State, sid: nat, now: real)
    requires Reachable(s) && Enabled(s, Ping(sid, now))
    ensures var s' := Apply(s, Ping(sid, now));
            Leads(s, s', Scope(sid, {})) && s'.sessions[sid] == s.sessions[sid].(lastSeen := now)
  {
    ReachableStep(s, Ping(sid, now));
  }

  lemma CloseLeads(s: State, sid: nat)
    requires Reachable(s) && Enabled(s, CloseConn(sid))
    ensures var s' := Apply(s, CloseConn(sid));
            Leads(s, s', Scope(sid, {})) && s'.sessions[sid] == s.sessions[sid].(closed := true)
  {
    ReachableStep(s, CloseConn(sid));
  }

  /** Steps outside the coordinator's own fields. */
  ghost predicate TouchesNoField(a: Action) {
    a.Forward? || a.FailForward? || a.Timeout? || a.NodeAnswer? || a.NodeSend? || a.ReaderExit?
  }

  lemma ElsewhereLeads(s: State, a: Action)
    requires Reachable(s) && Enabled(s, a) && TouchesNoField(a)
    ensures Leads(s, Apply(s, a), Nothing(s))
  {
    ElsewhereChanges(s, a);
    ReachableStep(s, a);
  }

  lemma ElsewhereChanges(s: State, a: Action)
    requires Enabled(s, a) && TouchesNoField(a)
    ensures Changes(s, Apply(s, a), Nothing(s)) && Apply(s, a).recorded == s.recorded
  {
  }

  lemma UnregisterReachable(s: State, sid: nat)
    requires Reachable(s) && Enabled(s, Unregister(sid))
    ensures var s' := AfterUnregister(s, sid);
            && Reachable(s') && s'.recorded == s.recorded && s'.handlers == s.handlers && |s'.sessions| == |s.sessions|
            && s'.nodes == s.nodes - {s.sessions[sid].id}
            && (forall i: nat :: i < |s.sessions| ==> SameFields(s.sessions[i], s'.sessions[i]))
  {
    ReachableStep(s, Unregister(sid));
  }

  lemma VisitReachable(s: State, id: string, now: real)
    requires Reachable(s) && Enabled(s, Action.Prune({id}, now))
    ensures var s', sid := AfterPrune(s, {id}), s.nodes[id];
            && Reachable(s') && s'.recorded == s.recorded && s'.handlers == s.handlers
            && s'.nodes == s.nodes - {id} && s'.sessions == s.sessions[sid := s.sessions[sid].(closed := true)]
  {
    ReachableStep(s, Action.Prune({id}, now));
  }

  /** The entries of `ids` were dropped, in some order. */
  ghost predicate Ticked(s: State, s': State, ids: set<string>) {
    s' == AfterPrune(s, ids).(log := s'.log)
  }

  /** One round of a sweep that has `rest` still to visit.  Whether an entry is stale does not
      depend on those visited before. */
  lemma TickedRound(s: State, s': State, rest: set<string>, id: string, now: real)
    requires forall x <- s.nodes :: s.nodes[x] < |s.sessions|
    requires Ticked(s, s', Stale(s, now) - rest) && id in rest && rest <= s.nodes.Keys
    ensures id in s'.nodes && forall x <- s'.nodes :: s'.nodes[x] < |s'.sessions|
    ensures id in Stale(s', now) ==> Ticked(s, AfterPrune(s', {id}), Stale(s, now) - (rest - {id}))
    ensures id !in Stale(s', now) ==> Ticked(s, s', Stale(s, now) - (rest - {id}))
  {
    var ids := Stale(s, now) - rest;
    assert s'.sessions[s.nodes[id]] == Closing(s, s.nodes[id], ids);
    if id in Stale(s, now) {
      assert Stale(s, now) - (rest - {id}) == ids + {id};
      TickedMore(s, s', ids, id);
    } else {
      assert Stale(s, now) - (rest - {id}) == ids;
    }
  }

  lemma TickedNone(s: State, now: real)
    requires forall x <- s.nodes :: s.nodes[x] < |s.sessions|
    ensures Ticked(s, s, Stale(s, now) - s.nodes.Keys)
  {
    assert Stale(s, now) - s.nodes.Keys == {};
    assert AfterPrune(s, {}).sessions == s.sessions;
  }

  lemma TickCloses(s: State, i: nat, id: string, now: real)
    requires forall x <- s.nodes :: s.nodes[x] < |s.sessions|
    requires id in s.nodes && s.nodes[id] == i
    ensures Closing(s, i, Stale(s, now)).closed <==> s.sessions[i].closed || s.sessions[i].lastSeen < now - DROP_AFTER
  {
    if s.sessions[i].lastSeen < now - DROP_AFTER { assert id in Stale(s, now); }
  }

  lemma TickedMore(s: State, s': State, ids: set<string>, id: string)
    requires Ticked(s, s', ids) && id in s.nodes && id !in ids
    ensures Ticked(s, AfterPrune(s', {id}), ids + {id})
  {
    var t, t' := AfterPrune(s', {id}), AfterPrune(s, ids + {id});
    forall i | 0 <= i < |s.sessions| ensures t.sessions[i] == t'.sessions[i] {
      assert s'.sessions[i] == Closing(s, i, ids);
    }
    assert t.sessions == t'.sessions && t.nodes == t'.nodes;
  }

  lemma AnsweredCounted(s: State)
    requires Reachable(s)
    ensures s.recorded == |Ids(s.handlers, WasAnswered)|
  {
    ReachableInv(s);
  }

  class Coordinator {
    var nodes: map<string, Node>
    const sdp: SdpTracker
    const exp: real -> real

    ghost var model: State
    ghost var sessions: seq<Node>                  // every session so far, by model index
    ghost var waiters: map<string, PendingOffer>   // every waiter so far, by request id

    /** Object `n` is session `i` of the model. */
    ghost predicate Matches(n: Node, i: nat)
      requires i < |model.sessions|
      reads this, n
    {
      var m := model.sessions[i];
      && n.sid == i && n.id == m.id && n.services == m.services && n.lastSeen == m.lastSeen
      && n.pending.Keys == m.pending && n.connClosed == m.closed
      && (forall r <- n.pending :: r in waiters && n.pending[r] == waiters[r])
    }

    ghost predicate SessionsMatch()
      reads this, sessions
    {
      && |sessions| == |model.sessions|
      && (forall i: nat :: i < |sessions| ==> Matches(sessions[i], i))
    }

    /** The waiter of request `r`, if its handler has made one. */
    ghost predicate WaiterMatches(r: string)
      reads this, waiters.Values
    {
      && (r in waiters <==> HasWaiter(model.handlers, r))
      && (r in waiters ==> waiters[r].rid == r && waiters[r].ch == Answers(model.handlers[r].ch))
    }

    ghost predicate WaitersMatch()
      reads this, waiters.Values
    {
      forall r: string :: WaiterMatches(r)
    }

    ghost predicate NodesMatch()
      reads this
    {
      && nodes.Keys == model.nodes.Keys
      && (forall id: string :: id in nodes ==>
            model.nodes[id] < |sessions| && nodes[id] == sessions[model.nodes[id]])
    }

    /** One exchange was recorded for each handler that took the answer branch. */
    ghost predicate SdpMatches()
      reads this, sdp
    {
      IsExp(exp) && sdp.Valid(exp) && |sdp.events| == model.recorded
    }

    ghost predicate Valid()
      reads this, sessions, waiters.Values, sdp
    {
      Reachable(model) && SessionsMatch() && WaitersMatch() && NodesMatch() && SdpMatches()
    }

    constructor (exp: real -> real)
      requires IsExp(exp)
      ensures Valid() && model == INIT && nodes == map[] && this.exp == exp && sdp.events == []
    {
      this.exp := exp;
      sdp := new SdpTracker(exp);
      nodes, model, sessions, waiters := map[], INIT, [], map[];
      new;
      assert IsRun(INIT, []) && Exec(INIT, []) == INIT;
    }

    /** The objects follow a step that changes the registry in no way, and the
        objects of its scope as they do. */
    twostate lemma Follow(sc: Scope)
      requires old(SessionsMatch()) && old(WaitersMatch()) && old(NodesMatch())
      requires sessions == old(sessions) && nodes == old(nodes) && Changes(old(model), model, sc)
      requires forall n <- sessions :: (sc.sid < |sessions| ==> n != sessions[sc.sid]) ==> unchanged(n)
      requires forall p <- old(waiters.Values) :: p.rid !in sc.rids ==> unchanged(p)
      requires forall r <- old(waiters) :: r in waiters && waiters[r] == old(waiters[r])
      requires forall r <- waiters :: r in old(waiters) || r in sc.rids
      requires sc.sid < |sessions| ==> Matches(sessions[sc.sid], sc.sid)
      requires forall r <- sc.rids :: WaiterMatches(r)
      ensures SessionsMatch()
      ensures WaitersMatch()
      ensures NodesMatch()
    {
      SessionsFollow(sc.sid);
      WaitersFollow(sc.rids);
    }

    twostate lemma WaitersFollow(rids: set<string>)
      requires old(WaitersMatch())
      requires forall r: string :: r !in rids ==> SameWaiter(old(model.handlers), model.handlers, r)
      requires forall p <- old(waiters.Values) :: p.rid !in rids ==> unchanged(p)
      requires forall r <- old(waiters) :: r in waiters && waiters[r] == old(waiters[r])
      requires forall r <- waiters :: r in old(waiters) || r in rids
      requires forall r <- rids :: WaiterMatches(r)
      ensures WaitersMatch()
    {
      forall r: string ensures WaiterMatches(r) {
        assert old(WaiterMatches(r));
        if r !in rids { assert SameWaiter(old(model.handlers), model.handlers, r); }
      }
    }

    twostate lemma SessionsFollow(sid: nat)
      requires old(SessionsMatch()) && sessions == old(sessions) && |model.sessions| == |sessions|
      requires forall i: nat :: i < |sessions| && i != sid ==> SameFields(old(model.sessions[i]), model.sessions[i])
      requires forall n <- sessions :: (sid < |sessions| ==> n != sessions[sid]) ==> unchanged(n)
      requires forall r <- old(waiters) :: r in waiters && waiters[r] == old(waiters[r])
      requires sid < |sessions| ==> Matches(sessions[sid], sid)
      ensures SessionsMatch()
    {
      forall i: nat | i < |sessions| ensures Matches(sessions[i], i) {
        assert old(Matches(sessions[i], i)) && sessions[i] in sessions;
        if sid < |sessions| { assert old(Matches(sessions[sid], sid)); }
        assert i != sid ==> SameFields(old(model.sessions[i]), model.sessions[i]);
      }
    }

    // ---- Sessions -------------------------------------------------------------------------

    /** registerNode. */
    method RegisterNode(n: Node, ghost honest: bool)
      requires Valid() && n.sid == |sessions| && n.pending == map[] && !n.connClosed
      modifies this
      ensures Valid() && model == Apply(old(model), Register(n.id, n.services, honest, n.lastSeen))
      ensures sessions == old(sessions) + [n] && waiters == old(waiters)
      ensures nodes == old(nodes)[n.id := n]
    {
      ghost var a := Register(n.id, n.services, honest, n.lastSeen);
      ReachableStep(model, a);
      nodes := nodes[n.id := n];
      model, sessions := Apply(model, a), sessions + [n];
      forall i: nat | i < |sessions| ensures Matches(sessions[i], i) {
        if i < |old(sessions)| { assert old(Matches(sessions[i], i)); }
      }
      WaitersFollow({});
    }

    /** unregisterNode, deferred by the session's goroutine. */
    method UnregisterNode(id: string, ghost sid: nat)
      requires Valid() && Enabled(model, Unregister(sid)) && id == model.sessions[sid].id
      modifies this
      ensures Valid() && model == Apply(old(model), Unregister(sid))
      ensures sessions == old(sessions) && waiters == old(waiters)
      ensures nodes == old(nodes) - {id}
    {
      UnregisterReachable(model, sid);
      nodes := nodes - {id};
      model := Apply(model, Unregister(sid));
      SessionsFollow(|sessions|);
      WaitersFollow({});
    }

    /** The session's goroutine closes its connection last. */
    method CloseConnection(n: Node, ghost sid: nat)
      requires Valid() && Enabled(model, CloseConn(sid)) && n == sessions[sid]
      modifies this`model, n`connClosed
      ensures Valid() && model == Apply(old(model), CloseConn(sid)) && n.connClosed
    {
      CloseLeads(model, sid);
      assert Matches(n, sid);
      n.connClosed := true;
      model := Apply(model, CloseConn(sid));
      Follow(Scope(sid, {}));
    }

    /** The ping handler. */
    method HandlePing(n: Node, ghost sid: nat, now: real)
      requires Valid() && Enabled(model, Ping(sid, now)) && n == sessions[sid]
      modifies this`model, n`lastSeen
      ensures Valid() && model == Apply(old(model), Ping(sid, now)) && n.lastSeen == now
    {
      PingLeads(model, sid, now);
      assert Matches(n, sid);
      n.lastSeen := now;
      model := Apply(model, Ping(sid, now));
      Follow(Scope(sid, {}));
    }

    /** The read loop's locked region for an answer: look the waiter up and remove it. */
    method TakeWaiter(n: Node, ghost sid: nat, ans: AnswerMsg) returns (p: PendingOffer?)
      requires Valid() && sid < |model.sessions| && model.sessions[sid].reader.Reading? && n == sessions[sid]
      requires model.sessions[sid].wire != [] && ans == model.sessions[sid].wire[0]
      modifies this`model, n`pending
      ensures Valid() && model == AfterReaderTake(old(model), sid)
      ensures n.pending == old(n.pending) - {ans.requestId}
      ensures if ans.requestId in old(n.pending) then p == waiters[ans.requestId] else p == null
    {
      TakeLeads(model, sid);
      assert Matches(n, sid);
      p := n.Remove(ans.requestId);
      model := AfterReaderTake(model, sid);
      Follow(Scope(sid, {}));
    }

    /** The read loop's send.  The channel's buffer is empty, so the send does not block. */
    method SendAnswer(p: PendingOffer, ghost sid: nat, ans: AnswerMsg)
      requires Valid() && Enabled(model, ReaderSend(sid)) && model.sessions[sid].reader == Holding(ans)
      requires ans.requestId in waiters && p == waiters[ans.requestId]
      modifies this`model, p
      ensures old(p.ch) == [] && p.ch == [ans]
      ensures Valid() && model == AfterReaderSend(old(model), sid)
    {
      SendLeads(model, sid);
      assert WaiterMatches(ans.requestId);
      p.ch := p.ch + [ans];
      model := AfterReaderSend(model, sid);
      Follow(Scope(|sessions|, {ans.requestId}));
    }

    /** The prune loop drops an entry, under the session's lock. */
    method Evict(id: string, now: real)
      requires Valid() && Enabled(model, Action.Prune({id}, now))
      modifies this`model, this`nodes, nodes.Values`connClosed
      ensures Valid() && model == AfterPrune(old(model), {id})
      ensures nodes == old(nodes) - {id} && old(nodes)[id].connClosed
    {
      VisitReachable(model, id, now);
      ghost var after := AfterPrune(model, {id});
      nodes[id].connClosed := true;
      nodes := nodes - {id};
      model := after;
      EvictFollows(id);
    }

    twostate lemma EvictFollows(id: string)
      requires old(SessionsMatch()) && old(WaitersMatch()) && old(NodesMatch()) && id in old(nodes)
      requires sessions == old(sessions) && waiters == old(waiters) && nodes == old(nodes) - {id}
      requires forall p <- old(waiters.Values) :: unchanged(p)
      requires forall n <- sessions :: n != old(nodes)[id] ==> unchanged(n)
      requires forall n <- sessions :: n.lastSeen == old(n.lastSeen) && n.pending == old(n.pending)
      requires old(nodes)[id].connClosed
      requires model.handlers == old(model).handlers && model.nodes == old(model).nodes - {id}
      requires var sid, m := old(model).nodes[id], old(model).sessions;
               sid < |m| && model.sessions == m[sid := m[sid].(closed := true)]
      ensures SessionsMatch()
      ensures WaitersMatch()
      ensures NodesMatch()
    {
      var sid := old(model).nodes[id];
      assert old(Matches(sessions[sid], sid)) && sessions[sid] in sessions;
      assert Matches(sessions[sid], sid);
      SessionsFollow(sid);
      WaitersFollow({});
    }

    /** One round of the prune loop's sweep. */
    method Visit(id: string, now: real)
      requires Valid() && id in nodes
      modifies this`model, this`nodes, nodes.Values`connClosed
      ensures Valid()
      ensures if id in Stale(old(model), now)
              then model == AfterPrune(old(model), {id}) && nodes == old(nodes) - {id} && old(nodes)[id].connClosed
              else model == old(model) && nodes == old(nodes)
      ensures id in Stale(old(model), now) <==> old(nodes)[id].lastSeen < now - 180.0
    {
      assert Matches(sessions[model.nodes[id]], model.nodes[id]);
      ValidNodes();
      if nodes[id].lastSeen < now - DROP_AFTER {
        Evict(id, now);
      }
    }

    lemma ValidNodes()
      requires NodesMatch() && SessionsMatch()
      ensures forall id <- model.nodes :: model.nodes[id] < |model.sessions|
    {
      assert forall id <- model.nodes :: id in nodes;
    }

    /** One tick of the prune loop, when nothing else comes between: the map is visited in any
        order, and exactly the stale entries are dropped and their connections closed. */
    method Prune(now: real)
      requires Valid()
      modifies this`model, this`nodes, nodes.Values`connClosed
      ensures Valid() && Ticked(old(model), model, Stale(old(model), now))
      ensures forall id :: id in nodes <==> id in old(nodes) && old(nodes)[id].lastSeen >= now - 180.0
      ensures forall n <- old(nodes).Values :: n.connClosed <==> old(n.connClosed) || n.lastSeen < now - 180.0
    {
      Sweep(now);
      TickedObjects(now);
    }

    method Sweep(now: real)
      requires Valid()
      modifies this`model, this`nodes, nodes.Values`connClosed
      ensures Valid() && Ticked(old(model), model, Stale(old(model), now))
    {
      ValidNodes();
      ghost var was := model;
      var rest := nodes.Keys;
      TickedNone(model, now);
      while rest != {}
        invariant Valid() && rest <= was.nodes.Keys && Ticked(was, model, Stale(was, now) - rest)
        invariant nodes.Values <= old(nodes).Values
        decreases rest
      {
        var id :| id in rest;
        TickedRound(was, model, rest, id, now);
        Visit(id, now);
        rest := rest - {id};
      }
      assert Stale(was, now) - {} == Stale(was, now);
    }

    /** What a tick of the model means for the objects. */
    twostate lemma TickedObjects(now: real)
      requires old(SessionsMatch()) && old(NodesMatch()) && SessionsMatch() && NodesMatch() && sessions == old(sessions)
      requires forall n <- sessions :: n.lastSeen == old(n.lastSeen)
      requires forall id <- old(model).nodes :: old(model).nodes[id] < |old(model).sessions|
      requires Ticked(old(model), model, Stale(old(model), now))
      ensures forall id :: id in nodes <==> id in old(nodes) && old(nodes)[id].lastSeen >= now - DROP_AFTER
      ensures forall n <- old(nodes).Values :: n.connClosed <==> old(n.connClosed) || n.lastSeen < now - DROP_AFTER
    {
      forall id: string ensures id in nodes <==> id in old(nodes) && old(nodes)[id].lastSeen >= now - DROP_AFTER {
        if id in old(nodes) {
          var i := old(model).nodes[id];
          assert old(Matches(sessions[i], i)) && sessions[i] in sessions;
        }
      }
      forall n <- old(nodes).Values ensures n.connClosed <==> old(n.connClosed) || n.lastSeen < now - DROP_AFTER {
        var id :| id in old(nodes) && old(nodes)[id] == n;
        var i := old(model).nodes[id];
        assert old(Matches(sessions[i], i)) && Matches(sessions[i], i) && sessions[i] in sessions;
        TickCloses(old(model), i, id, now);
        assert model.sessions[i] == Closing(old(model), i, Stale(old(model), now));
      }
    }

    // ---- Offer handlers -------------------------------------------------------------------

    /** Look the node up; `rid` is the fresh id the handler will use. */
    method LookupNode(nodeId: string, ghost rid: string, ghost offer: string) returns (n: Node?)
      requires Valid() && rid !in model.handlers
      modifies this`model
      ensures Valid() && model == AfterLookup(old(model), nodeId, rid, offer)
      ensures if nodeId in nodes then n == nodes[nodeId] else n == null
    {
      LookupLeads(model, nodeId, rid, offer);
      n := null;
      if nodeId in nodes { n := nodes[nodeId]; }
      model := AfterLookup(model, nodeId, rid, offer);
      Follow(Nothing(model));
    }

    /** Make a waiter and insert it. */
    method InsertWaiter(n: Node, rid: string) returns (p: PendingOffer)
      requires Valid() && InPhase(model, rid, Found) && n == sessions[model.handlers[rid].session]
      modifies this`model, this`waiters, n`pending
      ensures Valid() && model == AfterInsert(old(model), rid)
      ensures fresh(p) && waiters == old(waiters)[rid := p] && n.pending == old(n.pending)[rid := p]
    {
      InsertLeads(model, rid);
      assert Matches(n, model.handlers[rid].session) && WaiterMatches(rid);
      p := new PendingOffer(rid);
      n.pending := n.pending[rid := p];
      waiters := waiters[rid := p];
      model := AfterInsert(model, rid);
      Follow(Scope(n.sid, {rid}));
    }

    /** Delete the waiter, after a failed write or a timeout. */
    method DropWaiter(n: Node, rid: string)
      requires Valid() && (InPhase(model, rid, WriteFailed) || InPhase(model, rid, TimingOut))
      requires n == sessions[model.handlers[rid].session]
      modifies this`model, n`pending
      ensures Valid() && model == Dropped(old(model), rid)
      ensures n.pending == old(n.pending) - {rid}
    {
      DropLeads(model, rid);
      assert Matches(n, model.handlers[rid].session);
      n.pending := n.pending - {rid};
      model := Dropped(model, rid);
      Follow(Scope(n.sid, {}));
    }

    /** The select's first branch: take the answer out of the channel. */
    method ReceiveAnswer(p: PendingOffer, rid: string) returns (ans: AnswerMsg)
      requires Valid() && WaiterMatches(rid) && InPhase(model, rid, Waiting) && p == waiters[rid] && p.ch != []
      modifies this`model, p
      ensures Valid() && model == AfterReceive(old(model), rid)
      ensures ans.requestId == rid && old(p.ch) == [ans] && p.ch == []
    {
      ReceiveLeads(model, rid);
      assert WaiterMatches(rid);
      ans := p.ch[0];
      p.ch := p.ch[1..];
      model := AfterReceive(model, rid);
      Follow(Scope(|sessions|, {rid}));
    }

    /** The answer branch records the exchange and returns; `now` was read before the lock was
        taken. */
    method RecordExchange(ghost rid: string, now: real)
      requires Valid() && Enabled(model, Record(rid))
      modifies this`model, sdp
      ensures Valid() && model == AfterRecord(old(model), rid) && sdp.events == old(sdp.events) + [now]
    {
      RecordLeads(model, rid);
      sdp.Record(exp, now);
      model := AfterRecord(model, rid);
      Follow(Nothing(model));
    }

    /** The rate in `/api/stats`: it weighs one exchange for each handler that took the answer
        branch since the coordinator started. */
    method ExchangesPerHour(now: real) returns (r: real)
      requires Valid()
      ensures r == Rate(exp, sdp.events, now) && |sdp.events| == |Ids(model.handlers, WasAnswered)|
    {
      AnsweredCounted(model);
      r := sdp.PerHour(exp, now);
    }

    /** GET /services, on the registered objects. */
    method Services() returns (svcMap: map<string, seq<string>>)
      ensures ServiceIndex.IsIndex(map id | id in nodes :: nodes[id].services, svcMap)
      ensures forall svc <- svcMap :: Sorting.Ascending(svcMap[svc])
    {
      svcMap := ServiceIndex.HandleServices(map id | id in nodes :: nodes[id].services);
    }

    /** The handler's and the network's steps that touch no shared field: forwarding the offer,
        the timer, the peer's answers, the end of a read loop. */
    ghost method Elsewhere(a: Action)
      requires Valid() && Enabled(model, a) && TouchesNoField(a)
      modifies this`model
      ensures Valid() && model == Apply(old(model), a)
    {
      ElsewhereLeads(model, a);
      model := Apply(model, a);
      Follow(Nothing(model));
    }
  }
}
