/**
 What every step of the coordinator keeps.
 */
module OfferInvariants {
  import opened Offers

  // ---- Ownership of a waiter ------------------------------------------------------------

  /** The read loop of session `n` has taken the waiter `rid` and not sent yet. */
  ghost predicate InHand(n: Session, rid: string) {
    n.reader.Holding? && n.reader.ans.requestId == rid
  }

  /** In how many of the three places the waiter of handler `h` on session `n` is: pending, in
      the reader's hand, or as an answer in the channel. */
  ghost function Places(h: Handler, n: Session, rid: string): nat {
    (if rid in n.pending then 1 else 0) + (if InHand(n, rid) then 1 else 0) + |h.ch|
  }

  /** Between inserting the waiter and leaving the select or the error path. */
  ghost predicate InTransit(p: Phase) {
    p.Inserted? || p.Waiting? || p.WriteFailed? || p.TimingOut?
  }

  ghost predicate Returned(p: Phase) {
    p.Answered? || p.TimedOut? || p.ForwardFailed?
  }

  ghost predicate GotAnswer(p: Phase) {
    p.Received? || p.Answered?
  }

  /** The write of the offer succeeded. */
  ghost predicate Forwarded(p: Phase) {
    p.Waiting? || p.TimingOut? || p.TimedOut? || GotAnswer(p)
  }

  /** The offer of request `rid` reached the peer of `n`. */
  ghost predicate Reached(n: Session, rid: string) {
    exists m :: m in n.delivered && m.requestId == rid
  }

  ghost predicate HandlerOk(h: Handler, n: Session, rid: string) {
    && (h.phase.Found? || h.phase.Inserted? ==> !Reached(n, rid))
    && (Forwarded(h.phase) ==> Reached(n, rid))
    && (h.phase.Found? ==> Places(h, n, rid) == 0)
    && (InTransit(h.phase) ==> Places(h, n, rid) == 1)
    && (GotAnswer(h.phase) ==> Places(h, n, rid) == 0)
    && (Returned(h.phase) ==> rid !in n.pending && Places(h, n, rid) <= 1)
    && h.sends == |h.ch| + (if GotAnswer(h.phase) then 1 else 0)
    && (forall d <- h.ch :: d.ans.requestId == rid && d.via == h.session)
    && (GotAnswer(h.phase) ==> h.phase.got.ans.requestId == rid && h.phase.got.via == h.session)
  }

  /** A session's pending map and its reader's hand only refer to handlers of this session. */
  ghost predicate SessionOk(hs: map<string, Handler>, n: Session, sid: nat) {
    && (forall r <- n.pending :: r in hs && hs[r].session == sid)
    && (n.reader.Holding? ==> n.reader.ans.requestId in hs && hs[n.reader.ans.requestId].session == sid)
  }

  // ---- Answers of honest peers ----------------------------------------------------------

  /** The peer of `n` computed this answer for the very offer of the handler it names. */
  ghost predicate Computed(hs: map<string, Handler>, n: Session, ans: AnswerMsg) {
    && ans.requestId in hs
    && Work(OfferMsg(ans.requestId, hs[ans.requestId].offer), ans.answer) in n.computed
  }

  ghost predicate SessionGenuine(hs: map<string, Handler>, n: Session, sid: nat) {
    && (forall m <- n.delivered ::
          m.requestId in hs && hs[m.requestId].session == sid && hs[m.requestId].offer == m.offer)
    && (forall i, j :: 0 <= i < j < |n.delivered| ==> n.delivered[i].requestId != n.delivered[j].requestId)
    && (forall w <- n.computed :: w.msg in n.delivered)
    && (n.honest ==> forall ans <- n.wire :: Computed(hs, n, ans))
    && (n.honest && n.reader.Holding? ==> Computed(hs, n, n.reader.ans))
  }

  ghost predicate HandlerGenuine(hs: map<string, Handler>, h: Handler, n: Session) {
    n.honest ==>
      && (forall d <- h.ch :: Computed(hs, n, d.ans))
      && (GotAnswer(h.phase) ==> Computed(hs, n, h.phase.got.ans))
  }

  ghost predicate Ownership(s: State) {
    && (forall id <- s.nodes :: s.nodes[id] < |s.sessions|)
    && (forall sid: nat :: sid < |s.sessions| ==>
          SessionOk(s.handlers, s.sessions[sid], sid) && SessionGenuine(s.handlers, s.sessions[sid], sid))
    && (forall rid <- s.handlers ::
          && s.handlers[rid].session < |s.sessions|
          && HandlerOk(s.handlers[rid], s.sessions[s.handlers[rid].session], rid)
          && HandlerGenuine(s.handlers, s.handlers[rid], s.sessions[s.handlers[rid].session]))
  }

  // ---- One session and one handler at a time ---------------------------------------------

  /** `hs'` has the handlers of `hs`, each for the same session and offer. */
  ghost predicate Extends(hs: map<string, Handler>, hs': map<string, Handler>) {
    forall r <- hs :: r in hs' && hs'[r].session == hs[r].session && hs'[r].offer == hs[r].offer
  }

  /** Session `n'` is `n` after a step that concerns no waiters but `rids`. */
  ghost predicate Touches(n: Session, n': Session, rids: set<string>) {
    && n'.honest == n.honest && n.computed <= n'.computed
    && (forall r: string :: r !in rids ==> (r in n'.pending <==> r in n.pending))
    && (forall r: string :: r !in rids ==> (InHand(n', r) <==> InHand(n, r)))
    && (forall r: string :: r !in rids ==> (Reached(n', r) <==> Reached(n, r)))
  }

  lemma OthersKept(hs: map<string, Handler>, hs': map<string, Handler>, h: Handler, n: Session, n': Session,
                   rids: set<string>, r: string)
    requires r !in rids && Extends(hs, hs') && Touches(n, n', rids)
    requires HandlerOk(h, n, r) && HandlerGenuine(hs, h, n)
    ensures HandlerOk(h, n', r) && HandlerGenuine(hs', h, n')
  {
    assert r in n'.pending <==> r in n.pending;
    assert InHand(n', r) <==> InHand(n, r);
    assert Reached(n', r) <==> Reached(n, r);
  }

  /** A step that changes session `sid` and handlers `rids` keeps ownership if it does so for these. */
  lemma LocalStep(s: State, s': State, sid: nat, rids: set<string>)
    requires Ownership(s) && sid < |s.sessions| == |s'.sessions|
    requires s'.sessions == s.sessions[sid := s'.sessions[sid]] && Touches(s.sessions[sid], s'.sessions[sid], rids)
    requires Extends(s.handlers, s'.handlers) && s'.handlers.Keys <= s.handlers.Keys + rids
    requires forall r <- s.handlers :: r !in rids ==> s'.handlers[r] == s.handlers[r]
    requires forall id <- s'.nodes :: s'.nodes[id] < |s.sessions|
    requires SessionOk(s'.handlers, s'.sessions[sid], sid) && SessionGenuine(s'.handlers, s'.sessions[sid], sid)
    requires forall r <- rids :: r in s'.handlers ==>
               && s'.handlers[r].session == sid
               && HandlerOk(s'.handlers[r], s'.sessions[sid], r)
               && HandlerGenuine(s'.handlers, s'.handlers[r], s'.sessions[sid])
    ensures Ownership(s')
  {
    forall i: nat | i < |s'.sessions| && i != sid
      ensures SessionOk(s'.handlers, s'.sessions[i], i) && SessionGenuine(s'.handlers, s'.sessions[i], i)
    {
      assert SessionOk(s.handlers, s.sessions[i], i) && SessionGenuine(s.handlers, s.sessions[i], i);
    }
    forall r <- s'.handlers | r !in rids
      ensures s'.handlers[r].session < |s.sessions|
      ensures HandlerOk(s'.handlers[r], s'.sessions[s'.handlers[r].session], r)
      ensures HandlerGenuine(s'.handlers, s'.handlers[r], s'.sessions[s'.handlers[r].session])
    {
      OthersKept(s.handlers, s'.handlers, s.handlers[r], s.sessions[s.handlers[r].session],
                 s'.sessions[s.handlers[r].session], rids, r);
    }
  }

  /** A step of handler `rid` and its session, which may add or remove this waiter only. */
  lemma HandlerStep(s: State, rid: string, h: Handler, n: Session)
    requires Ownership(s) && HasSession(s, rid)
    requires h.session == s.handlers[rid].session && h.offer == s.handlers[rid].offer
    requires var m := s.sessions[h.session];
             && n == m.(pending := n.pending, reader := n.reader) && Touches(m, n, {rid})
             && (n.reader.Holding? ==> n.reader == m.reader)
    requires HandlerOk(h, n, rid) && HandlerGenuine(s.handlers, h, n)
    ensures Ownership(SetHandler(SetSession(s, h.session, n), rid, h))
  {
    SessionAfter(s.handlers, s.handlers[rid := h], s.sessions[h.session], n, h.session, rid);
    LocalStep(s, SetHandler(SetSession(s, h.session, n), rid, h), h.session, {rid});
  }

  lemma SessionAfter(hs: map<string, Handler>, hs': map<string, Handler>, m: Session, n: Session,
                     sid: nat, rid: string)
    requires SessionOk(hs, m, sid) && SessionGenuine(hs, m, sid)
    requires Extends(hs, hs') && rid in hs && hs[rid].session == sid
    requires n == m.(pending := n.pending, reader := n.reader) && Touches(m, n, {rid})
    requires n.reader.Holding? ==> n.reader == m.reader
    ensures SessionOk(hs', n, sid) && SessionGenuine(hs', n, sid)
  {
  }

  // ---- Each kind of step ------------------------------------------------------------------

  lemma InsertKeeps(s: State, rid: string)
    requires Ownership(s) && InPhase(s, rid, Found)
    ensures Ownership(AfterInsert(s, rid))
  {
    var h := s.handlers[rid];
    var n := s.sessions[h.session];
    HandlerStep(s, rid, h.(phase := Inserted), n.(pending := n.pending + {rid}));
  }

  lemma DropKeeps(s: State, rid: string, p: Phase)
    requires Ownership(s)
    requires (InPhase(s, rid, WriteFailed) && p.ForwardFailed?) || (InPhase(s, rid, TimingOut) && p.TimedOut?)
    ensures Ownership(AfterDrop(s, rid, p))
  {
    var h := s.handlers[rid];
    var n := s.sessions[h.session];
    HandlerStep(s, rid, h.(phase := p), n.(pending := n.pending - {rid}));
  }

  /** A step of the handler alone. */
  lemma MoveKeeps(s: State, rid: string, h: Handler)
    requires Ownership(s) && HasSession(s, rid)
    requires h.session == s.handlers[rid].session && h.offer == s.handlers[rid].offer
    requires HandlerOk(h, s.sessions[h.session], rid) && HandlerGenuine(s.handlers, h, s.sessions[h.session])
    ensures Ownership(SetHandler(s, rid, h))
  {
    var n := s.sessions[h.session];
    HandlerStep(s, rid, h, n);
    assert SetSession(s, h.session, n) == s;
  }

  /** Moving on while the waiter is in one of its places. */
  lemma PhaseKeeps(s: State, rid: string, p: Phase)
    requires Ownership(s)
    requires (InPhase(s, rid, Inserted) && p.WriteFailed?) || (InPhase(s, rid, Waiting) && p.TimingOut?)
    ensures Ownership(SetPhase(s, rid, p))
  {
    MoveKeeps(s, rid, s.handlers[rid].(phase := p));
  }

  lemma ReceiveKeeps(s: State, rid: string)
    requires Ownership(s) && InPhase(s, rid, Waiting) && s.handlers[rid].ch != []
    ensures Ownership(AfterReceive(s, rid))
  {
    var h := s.handlers[rid];
    MoveKeeps(s, rid, h.(ch := h.ch[1..], phase := Received(h.ch[0])));
  }

  lemma RecordKeeps(s: State, rid: string)
    requires Ownership(s) && rid in s.handlers && s.handlers[rid].phase.Received?
    ensures Ownership(AfterRecord(s, rid))
  {
    var h := s.handlers[rid];
    MoveKeeps(s, rid, h.(phase := Answered(h.phase.got)));
  }

  /** The offer reaches the peer, for the first time. */
  lemma WriteKeeps(s: State, rid: string, p: Phase)
    requires Ownership(s) && InPhase(s, rid, Inserted) && (p.Waiting? || p.WriteFailed?)
    ensures Ownership(SetPhase(Written(s, rid), rid, p))
  {
    var s' := SetPhase(Written(s, rid), rid, p);
    var h, sid := s.handlers[rid], s.handlers[rid].session;
    var n, n' := s.sessions[sid], s'.sessions[sid];
    assert HandlerOk(h, n, rid) && SessionGenuine(s.handlers, n, sid);
    WrittenOnce(s.handlers, s'.handlers, n, n', sid, OfferMsg(rid, h.offer));
    WrittenOk(h, n, n', rid, p);
    LocalStep(s, s', sid, {rid});
  }

  lemma WrittenOk(h: Handler, n: Session, n': Session, rid: string, p: Phase)
    requires HandlerOk(h, n, rid) && h.phase.Inserted? && (p.Waiting? || p.WriteFailed?)
    requires n' == n.(delivered := n'.delivered) && Reached(n', rid)
    ensures HandlerOk(h.(phase := p), n', rid)
  {
  }

  lemma WrittenOnce(hs: map<string, Handler>, hs': map<string, Handler>, n: Session, n': Session,
                    sid: nat, msg: OfferMsg)
    requires SessionGenuine(hs, n, sid) && !Reached(n, msg.requestId) && Extends(hs, hs')
    requires msg.requestId in hs && hs[msg.requestId].session == sid && hs[msg.requestId].offer == msg.offer
    requires n' == n.(delivered := n.delivered + [msg])
    ensures SessionGenuine(hs', n', sid) && Touches(n, n', {msg.requestId}) && Reached(n', msg.requestId)
  {
    forall i | 0 <= i < |n.delivered| ensures n.delivered[i].requestId != msg.requestId {
      assert n.delivered[i] in n.delivered;
    }
    assert n'.delivered[|n.delivered|] == msg;
    forall m <- n.delivered ensures m in n'.delivered {}
    forall r: string | r != msg.requestId ensures Reached(n', r) <==> Reached(n, r) {}
  }

  lemma LookupKeeps(s: State, nodeId: string, rid: string, offer: string)
    requires Ownership(s) && rid !in s.handlers
    ensures Ownership(AfterLookup(s, nodeId, rid, offer))
  {
    if nodeId in s.nodes {
      LocalStep(s, AfterLookup(s, nodeId, rid, offer), s.nodes[nodeId], {rid});
    }
  }

  lemma ReaderTakeKeeps(s: State, sid: nat)
    requires Ownership(s) && sid < |s.sessions| && s.sessions[sid].reader.Reading? && s.sessions[sid].wire != []
    ensures Ownership(AfterReaderTake(s, sid))
  {
    var s' := AfterReaderTake(s, sid);
    var n, n' := s.sessions[sid], s'.sessions[sid];
    var rid := n.wire[0].requestId;
    assert SessionOk(s.handlers, n, sid) && SessionGenuine(s.handlers, n, sid);
    TakenGenuine(s.handlers, n, n', sid);
    if rid in n.pending {
      TakenOk(s.handlers[rid], n, n', rid);
      LocalStep(s, s', sid, {rid});
    } else {
      LocalStep(s, s', sid, {});
    }
  }

  lemma TakenGenuine(hs: map<string, Handler>, n: Session, n': Session, sid: nat)
    requires SessionGenuine(hs, n, sid) && n.wire != []
    requires n' == n.(wire := n.wire[1..], pending := n'.pending, reader := n'.reader)
    requires n'.reader.Holding? ==> n'.reader.ans == n.wire[0]
    ensures SessionGenuine(hs, n', sid)
  {
    assert n.wire[0] in n.wire && forall x <- n'.wire :: x in n.wire;
  }

  /** Taking a pending waiter moves it from one place to another. */
  lemma TakenOk(h: Handler, n: Session, n': Session, rid: string)
    requires HandlerOk(h, n, rid) && rid in n.pending && !n.reader.Holding?
    requires rid !in n'.pending && InHand(n', rid) && n'.delivered == n.delivered
    ensures HandlerOk(h, n', rid)
  {
  }

  /** The send into the one-slot channel finds it empty, and it is the first one. */
  lemma SendFindsRoom(s: State, sid: nat)
    requires Ownership(s) && sid < |s.sessions| && s.sessions[sid].reader.Holding?
    ensures var rid := s.sessions[sid].reader.ans.requestId;
            && rid in s.handlers && s.handlers[rid].session == sid
            && s.handlers[rid].ch == [] && s.handlers[rid].sends == 0
  {
    var rid := s.sessions[sid].reader.ans.requestId;
    assert SessionOk(s.handlers, s.sessions[sid], sid);
    assert InHand(s.sessions[sid], rid);
    assert HandlerOk(s.handlers[rid], s.sessions[sid], rid);
  }

  lemma ReaderSendKeeps(s: State, sid: nat)
    requires Ownership(s) && sid < |s.sessions| && s.sessions[sid].reader.Holding?
    requires s.sessions[sid].reader.ans.requestId in s.handlers
    ensures Ownership(AfterReaderSend(s, sid))
  {
    SendFindsRoom(s, sid);
    var n, s' := s.sessions[sid], AfterReaderSend(s, sid);
    var rid := n.reader.ans.requestId;
    SentOk(s.handlers, s.handlers[rid], n, sid);
    SentGenuine(s.handlers, s'.handlers, n, s'.sessions[sid], sid);
    LocalStep(s, s', sid, {rid});
  }

  /** Sending moves the waiter from the reader's hand into the channel. */
  lemma SentOk(hs: map<string, Handler>, h: Handler, n: Session, sid: nat)
    requires n.reader.Holding? && n.reader.ans.requestId in hs && hs[n.reader.ans.requestId] == h
    requires HandlerOk(h, n, n.reader.ans.requestId) && SessionGenuine(hs, n, sid)
    requires h.session == sid && h.ch == [] && h.sends == 0
    ensures var ans := n.reader.ans;
            var h', n' := h.(ch := h.ch + [Delivery(ans, sid)], sends := h.sends + 1), n.(reader := Reading);
            && HandlerOk(h', n', ans.requestId)
            && HandlerGenuine(hs[ans.requestId := h'], h', n')
  {
    assert InHand(n, n.reader.ans.requestId);
    assert Reached(n.(reader := Reading), n.reader.ans.requestId) <==> Reached(n, n.reader.ans.requestId);
  }

  lemma SentGenuine(hs: map<string, Handler>, hs': map<string, Handler>, n: Session, n': Session, sid: nat)
    requires SessionOk(hs, n, sid) && SessionGenuine(hs, n, sid) && Extends(hs, hs') && n.reader.Holding?
    requires n' == n.(reader := Reading)
    ensures SessionOk(hs', n', sid) && SessionGenuine(hs', n', sid) && Touches(n, n', {n.reader.ans.requestId})
  {
  }

  /** Steps of a session or its peer that concern no waiter. */
  lemma SessionStepKeeps(s: State, sid: nat, n: Session)
    requires Ownership(s) && sid < |s.sessions|
    requires Touches(s.sessions[sid], n, {}) && (n.reader.Holding? ==> n.reader == s.sessions[sid].reader)
    requires n.delivered == s.sessions[sid].delivered && forall w <- n.computed :: w.msg in n.delivered
    requires n.honest ==> forall ans <- n.wire :: Computed(s.handlers, n, ans)
    ensures Ownership(SetSession(s, sid, n))
  {
    LocalStep(s, SetSession(s, sid, n), sid, {});
  }

  /** Steps that change neither the wire nor the waiters. */
  lemma IdleKeeps(s: State, sid: nat, n: Session)
    requires Ownership(s) && sid < |s.sessions|
    requires var m := s.sessions[sid];
             && n == m.(lastSeen := n.lastSeen, closed := n.closed, reader := n.reader)
             && (n.reader == m.reader || (!n.reader.Holding? && !m.reader.Holding?))
    ensures Ownership(SetSession(s, sid, n))
  {
    assert SessionGenuine(s.handlers, s.sessions[sid], sid);
    SessionStepKeeps(s, sid, n);
  }

  lemma NodeSendKeeps(s: State, sid: nat, ans: AnswerMsg)
    requires Ownership(s) && Enabled(s, NodeSend(sid, ans))
    ensures Ownership(Apply(s, NodeSend(sid, ans)))
  {
    assert SessionGenuine(s.handlers, s.sessions[sid], sid);
    SessionStepKeeps(s, sid, s.sessions[sid].(wire := s.sessions[sid].wire + [ans]));
  }

  lemma NodeAnswerKeeps(s: State, sid: nat, k: nat, answer: string)
    requires Ownership(s) && sid < |s.sessions| && k < |s.sessions[sid].delivered|
    ensures Ownership(AfterNodeAnswer(s, sid, k, answer))
  {
    SessionStepKeeps(s, sid, AfterNodeAnswer(s, sid, k, answer).sessions[sid]);
  }

  lemma RegisterKeeps(s: State, id: string, services: seq<string>, honest: bool, now: real)
    requires Ownership(s)
    ensures Ownership(AfterRegister(s, id, services, honest, now))
  {
  }

  lemma PruneKeeps(s: State, ids: set<string>)
    requires Ownership(s)
    ensures Ownership(AfterPrune(s, ids))
  {
    var s' := AfterPrune(s, ids);
    forall i: nat | i < |s'.sessions|
      ensures SessionOk(s'.handlers, s'.sessions[i], i) && SessionGenuine(s'.handlers, s'.sessions[i], i)
    {
      ClosingKeeps(s.handlers, s.sessions[i], s'.sessions[i], i);
    }
    forall r <- s'.handlers
      ensures HandlerOk(s'.handlers[r], s'.sessions[s'.handlers[r].session], r)
      ensures HandlerGenuine(s'.handlers, s'.handlers[r], s'.sessions[s'.handlers[r].session])
    {
      var h := s.handlers[r];
      ClosingKeeps(s.handlers, s.sessions[h.session], s'.sessions[h.session], h.session);
      OthersKept(s.handlers, s.handlers, h, s.sessions[h.session], s'.sessions[h.session], {}, r);
    }
  }

  lemma ClosingKeeps(hs: map<string, Handler>, n: Session, n': Session, sid: nat)
    requires SessionOk(hs, n, sid) && SessionGenuine(hs, n, sid) && n' == n.(closed := n'.closed)
    ensures SessionOk(hs, n', sid) && SessionGenuine(hs, n', sid) && Touches(n, n', {})
  {
  }

  /** The action is one of an offer handler; the others are a session's or the prune loop's. */
  ghost predicate OfHandler(a: Action) {
    || a.Lookup? || a.Insert? || a.Forward? || a.FailForward? || a.DropFailed?
    || a.Timeout? || a.DropTimedOut? || a.Receive? || a.Record?
  }

  lemma OwnershipKeptByHandler(s: State, a: Action)
    requires Ownership(s) && Enabled(s, a) && OfHandler(a)
    ensures Ownership(Apply(s, a))
  {
    match a {
      case Lookup(nodeId, rid, offer) => LookupKeeps(s, nodeId, rid, offer);
      case Insert(rid) => InsertKeeps(s, rid);
      case Forward(rid) => WriteKeeps(s, rid, Waiting);
      case FailForward(rid, reached) =>
        if reached { WriteKeeps(s, rid, WriteFailed); } else { PhaseKeeps(s, rid, WriteFailed); }
      case DropFailed(rid) => DropKeeps(s, rid, ForwardFailed);
      case Timeout(rid) => PhaseKeeps(s, rid, TimingOut);
      case DropTimedOut(rid) => DropKeeps(s, rid, TimedOut);
      case Receive(rid) => ReceiveKeeps(s, rid);
      case Record(rid) => RecordKeeps(s, rid);
    }
  }

  lemma OwnershipKeptBySession(s: State, a: Action)
    requires Ownership(s) && Enabled(s, a)
    requires a.Ping? || a.NodeSend? || a.ReaderExit? || a.Unregister? || a.CloseConn?
    ensures Ownership(Apply(s, a))
  {
    match a {
      case Ping(sid, now) => IdleKeeps(s, sid, s.sessions[sid].(lastSeen := now));
      case NodeSend(sid, ans) => NodeSendKeeps(s, sid, ans);
      case ReaderExit(sid) => IdleKeeps(s, sid, s.sessions[sid].(reader := Leaving));
      case Unregister(sid) => IdleKeeps(s, sid, s.sessions[sid].(reader := Gone));
      case CloseConn(sid) => IdleKeeps(s, sid, s.sessions[sid].(closed := true));
    }
  }

  lemma OwnershipKept(s: State, a: Action)
    requires Ownership(s) && Enabled(s, a)
    ensures Ownership(Apply(s, a))
  {
    if OfHandler(a) {
      OwnershipKeptByHandler(s, a);
    } else if a.Register? {
      RegisterKeeps(s, a.id, a.services, a.honest, a.now);
    } else if a.NodeAnswer? {
      NodeAnswerKeeps(s, a.sid, a.k, a.answer);
    } else if a.ReaderTake? {
      ReaderTakeKeeps(s, a.sid);
    } else if a.ReaderSend? {
      ReaderSendKeeps(s, a.sid);
    } else if a.Prune? {
      PruneKeeps(s, a.ids);
    } else {
      OwnershipKeptBySession(s, a);
    }
  }

  // ---- The registry and its history -----------------------------------------------------

  /** Event `e` changes what the registry says about `id`. */
  ghost predicate Concerns(e: RegEvent, id: string) {
    match e
    case Registered(x, _) => x == id
    case Unregistered(x, _) => x == id
    case Pruned(ids) => id in ids
  }

  /** Event `k` is the last one that concerns `id`. */
  ghost predicate LastWord(log: seq<RegEvent>, id: string, k: nat) {
    k < |log| && Concerns(log[k], id) && forall j :: k < j < |log| ==> !Concerns(log[j], id)
  }

  ghost predicate EntryOk(s: State, id: string)
    requires id in s.nodes
  {
    var sid := s.nodes[id];
    && sid < |s.sessions| && s.sessions[sid].id == id && !s.sessions[sid].reader.Gone? && !s.sessions[sid].closed
    && exists k: nat :: LastWord(s.log, id, k) && s.log[k] == Registered(id, sid)
  }

  ghost predicate EventOk(s: State, k: nat)
    requires k < |s.log|
  {
    var e := s.log[k];
    && (e.Registered? ==>
          && e.sid < |s.sessions| && s.sessions[e.sid].id == e.id
          && (LastWord(s.log, e.id, k) ==> e.id in s.nodes && s.nodes[e.id] == e.sid)
          && (forall j: nat :: k < j < |s.log| && s.log[j].Registered? ==> e.sid < s.log[j].sid))
    && (e.Unregistered? ==>
          && e.sid < |s.sessions| && s.sessions[e.sid].id == e.id && s.sessions[e.sid].reader.Gone?
          && (exists j: nat :: j < k && s.log[j] == Registered(e.id, e.sid))
          && (forall j: nat :: k < j < |s.log| && s.log[j].Unregistered? ==> s.log[j].sid != e.sid))
  }

  ghost predicate Enrolled(s: State, sid: nat)
    requires sid < |s.sessions|
  {
    && Registered(s.sessions[sid].id, sid) in s.log
    && (s.sessions[sid].reader.Gone? ==> Unregistered(s.sessions[sid].id, sid) in s.log)
  }

  ghost predicate History(s: State) {
    && (forall id <- s.nodes :: EntryOk(s, id))
    && (forall k: nat :: k < |s.log| ==> EventOk(s, k))
    && (forall sid: nat :: sid < |s.sessions| ==> Enrolled(s, sid))
  }

  /** Nothing that the history is about changed. */
  ghost predicate SameRegistry(s: State, s': State) {
    && s'.nodes == s.nodes && s'.log == s.log && |s'.sessions| == |s.sessions|
    && forall sid: nat :: sid < |s.sessions| ==>
         && s'.sessions[sid].id == s.sessions[sid].id
         && s'.sessions[sid].reader.Gone? == s.sessions[sid].reader.Gone?
         && (s'.sessions[sid].closed ==> s.sessions[sid].closed || s.sessions[sid].reader.Gone?)
  }

  lemma HistoryFrame(s: State, s': State)
    requires History(s) && SameRegistry(s, s')
    ensures History(s')
  {
    forall id <- s'.nodes ensures EntryOk(s', id) { assert EntryOk(s, id); }
    forall k: nat | k < |s'.log| ensures EventOk(s', k) { assert EventOk(s, k); }
    forall sid: nat | sid < |s'.sessions| ensures Enrolled(s', sid) { assert Enrolled(s, sid); }
  }

  lemma QuietHandler(s: State, a: Action)
    requires Enabled(s, a) && OfHandler(a)
    ensures SameRegistry(s, Apply(s, a))
  {
  }

  lemma QuietSession(s: State, a: Action)
    requires Enabled(s, a) && !OfHandler(a) && !a.Register? && !a.Unregister? && !a.Prune?
    ensures SameRegistry(s, Apply(s, a))
  {
  }

  /** The registry after one more event. */
  ghost predicate LogsOne(s: State, s': State, e: RegEvent) {
    && s'.log == s.log + [e]
    && (forall id: string :: !Concerns(e, id) ==>
          (id in s'.nodes <==> id in s.nodes) && (id in s.nodes ==> s'.nodes[id] == s.nodes[id]))
    && (forall id: string :: Concerns(e, id) ==>
          if e.Registered? then id in s'.nodes && s'.nodes[id] == e.sid else id !in s'.nodes)
  }

  lemma EntryStep(s: State, s': State, e: RegEvent, id: string)
    requires LogsOne(s, s', e) && id in s'.nodes && (id in s.nodes ==> EntryOk(s, id))
    ensures exists k: nat :: LastWord(s'.log, id, k) && s'.log[k] == Registered(id, s'.nodes[id])
  {
    if Concerns(e, id) {
      assert LastWord(s'.log, id, |s.log|);
    } else {
      var k: nat :| LastWord(s.log, id, k) && s.log[k] == Registered(id, s.nodes[id]);
      assert LastWord(s'.log, id, k);
    }
  }

  lemma EventStep(s: State, s': State, e: RegEvent, k: nat)
    requires LogsOne(s, s', e) && k < |s.log| && EventOk(s, k)
    requires |s.sessions| <= |s'.sessions|
    requires forall sid: nat :: sid < |s.sessions| ==>
               && s'.sessions[sid].id == s.sessions[sid].id
               && (s.sessions[sid].reader.Gone? ==> s'.sessions[sid].reader.Gone?)
    requires e.Registered? ==> e.sid == |s.sessions|
    requires e.Unregistered? ==> e.sid < |s.sessions| && !s.sessions[e.sid].reader.Gone?
    ensures EventOk(s', k)
  {
    var f := s.log[k];
    assert s'.log[k] == f;
    if f.Registered? && LastWord(s'.log, f.id, k) {
      assert !Concerns(s'.log[|s.log|], f.id);
      forall j | k < j < |s.log| ensures !Concerns(s.log[j], f.id) { assert !Concerns(s'.log[j], f.id); }
    }
    if f.Unregistered? {
      var j: nat :| j < k && s.log[j] == Registered(f.id, f.sid);
      assert s'.log[j] == Registered(f.id, f.sid);
    }
  }

  lemma RegisterLogs(s: State, id: string, services: seq<string>, honest: bool, now: real)
    requires History(s)
    ensures History(AfterRegister(s, id, services, honest, now))
  {
    var s' := AfterRegister(s, id, services, honest, now);
    var e := Registered(id, |s.sessions|);
    assert LogsOne(s, s', e);
    forall x <- s'.nodes ensures EntryOk(s', x) {
      if x != id { assert EntryOk(s, x); }
      EntryStep(s, s', e, x);
    }
    forall k: nat | k < |s'.log| ensures EventOk(s', k) {
      if k < |s.log| { EventStep(s, s', e, k); }
    }
    forall sid: nat | sid < |s'.sessions| ensures Enrolled(s', sid) {
      if sid < |s.sessions| { assert Enrolled(s, sid); } else { assert s'.log[|s.log|] == e; }
    }
  }

  lemma UnregisterLogs(s: State, sid: nat)
    requires History(s) && sid < |s.sessions| && s.sessions[sid].reader.Leaving?
    ensures History(AfterUnregister(s, sid))
  {
    var s' := AfterUnregister(s, sid);
    var e := Unregistered(s.sessions[sid].id, sid);
    assert LogsOne(s, s', e);
    forall x <- s'.nodes ensures EntryOk(s', x) {
      assert EntryOk(s, x);
      EntryStep(s, s', e, x);
    }
    forall k: nat | k < |s'.log| ensures EventOk(s', k) {
      if k < |s.log| {
        EventStep(s, s', e, k);
      } else {
        assert Enrolled(s, sid);
        var j: nat :| j < |s.log| && s.log[j] == Registered(e.id, sid);
        assert s'.log[j] == Registered(e.id, sid);
      }
    }
    forall i: nat | i < |s'.sessions| ensures Enrolled(s', i) {
      assert Enrolled(s, i);
      if i == sid { assert s'.log[|s.log|] == e; }
    }
  }

  lemma PruneLogs(s: State, ids: set<string>)
    requires History(s) && ids <= s.nodes.Keys
    ensures History(AfterPrune(s, ids))
  {
    var s' := AfterPrune(s, ids);
    var e := Pruned(ids);
    assert LogsOne(s, s', e);
    forall x <- s'.nodes ensures EntryOk(s', x) {
      assert EntryOk(s, x);
      forall id <- ids ensures s.nodes[id] != s.nodes[x] { assert EntryOk(s, id); }
      EntryStep(s, s', e, x);
    }
    forall k: nat | k < |s'.log| ensures EventOk(s', k) {
      if k < |s.log| { EventStep(s, s', e, k); }
    }
    forall i: nat | i < |s'.sessions| ensures Enrolled(s', i) { assert Enrolled(s, i); }
  }

  lemma HistoryKept(s: State, a: Action)
    requires History(s) && Enabled(s, a)
    ensures History(Apply(s, a))
  {
    match a
    case Register(id, services, honest, now) => RegisterLogs(s, id, services, honest, now);
    case Unregister(sid) => UnregisterLogs(s, sid);
    case Prune(ids, _) => PruneLogs(s, ids);
    case _ => QuietLogs(s, a);
  }

  lemma QuietLogs(s: State, a: Action)
    requires History(s) && Enabled(s, a) && !a.Register? && !a.Unregister? && !a.Prune?
    ensures History(Apply(s, a))
  {
    if OfHandler(a) { QuietHandler(s, a); } else { QuietSession(s, a); }
    HistoryFrame(s, Apply(s, a));
  }

  // ---- Counting -------------------------------------------------------------------------

  datatype Outcome = InFlight | WasAnswered | WasTimedOut | WasNotForwarded

  function OutcomeOf(p: Phase): Outcome {
    match p
    case Answered(_) => WasAnswered
    case TimedOut => WasTimedOut
    case ForwardFailed => WasNotForwarded
    case _ => InFlight
  }

  /** The handlers that came to outcome `o`. */
  function Ids(hs: map<string, Handler>, o: Outcome): set<string> {
    set r | r in hs && OutcomeOf(hs[r].phase) == o
  }

  ghost predicate Counts(s: State) {
    && s.found == |s.handlers|
    && s.recorded == |Ids(s.handlers, WasAnswered)|
    && s.timedOut == |Ids(s.handlers, WasTimedOut)|
    && s.forwardFailed == |Ids(s.handlers, WasNotForwarded)|
  }

  /** How one handler's move changes the number that came to outcome `o`. */
  lemma MoveCounts(hs: map<string, Handler>, rid: string, h: Handler, o: Outcome)
    requires rid in hs ==> OutcomeOf(hs[rid].phase) == InFlight && o != InFlight
    ensures |Ids(hs[rid := h], o)| == |Ids(hs, o)| + if OutcomeOf(h.phase) == o then 1 else 0
  {
    assert Ids(hs[rid := h], o) == Ids(hs, o) + if OutcomeOf(h.phase) == o then {rid} else {};
  }

  lemma SameCounts(hs: map<string, Handler>, rid: string, h: Handler, o: Outcome)
    requires rid in hs && OutcomeOf(h.phase) == OutcomeOf(hs[rid].phase)
    ensures Ids(hs[rid := h], o) == Ids(hs, o)
  {
  }

  /** A handler that is new or still in flight moves on. */
  lemma HandlerCounts(s: State, rid: string, h: Handler)
    requires Counts(s) && (rid in s.handlers ==> OutcomeOf(s.handlers[rid].phase) == InFlight)
    ensures var hs := s.handlers[rid := h];
            && |hs| == s.found + (if rid in s.handlers then 0 else 1)
            && |Ids(hs, WasAnswered)| == s.recorded + (if h.phase.Answered? then 1 else 0)
            && |Ids(hs, WasTimedOut)| == s.timedOut + (if h.phase.TimedOut? then 1 else 0)
            && |Ids(hs, WasNotForwarded)| == s.forwardFailed + (if h.phase.ForwardFailed? then 1 else 0)
  {
    assert s.handlers[rid := h].Keys == s.handlers.Keys + {rid};
    MoveCounts(s.handlers, rid, h, WasAnswered);
    MoveCounts(s.handlers, rid, h, WasTimedOut);
    MoveCounts(s.handlers, rid, h, WasNotForwarded);
  }

  lemma SendCounts(s: State, rid: string, h: Handler)
    requires Counts(s) && rid in s.handlers && h.phase == s.handlers[rid].phase
    ensures Counts(SetHandler(s, rid, h))
  {
    assert s.handlers[rid := h].Keys == s.handlers.Keys;
    SameCounts(s.handlers, rid, h, WasAnswered);
    SameCounts(s.handlers, rid, h, WasTimedOut);
    SameCounts(s.handlers, rid, h, WasNotForwarded);
  }

  lemma HandlerCountsKept(s: State, a: Action)
    requires Counts(s) && Enabled(s, a) && OfHandler(a)
    ensures Counts(Apply(s, a))
  {
    if a.rid in Apply(s, a).handlers {
      HandlerCounts(s, a.rid, Apply(s, a).handlers[a.rid]);
    }
  }

  lemma CountsKept(s: State, a: Action)
    requires Counts(s) && Enabled(s, a)
    ensures Counts(Apply(s, a))
  {
    if OfHandler(a) {
      HandlerCountsKept(s, a);
    } else if a.ReaderSend? {
      var rid := s.sessions[a.sid].reader.ans.requestId;
      SendCounts(s, rid, Apply(s, a).handlers[rid]);
    }
  }

  // ---- Every run ------------------------------------------------------------------------

  ghost predicate Inv(s: State) {
    Ownership(s) && History(s) && Counts(s)
  }

  lemma InvInit()
    ensures Inv(INIT)
  {
  }

  lemma InvKept(s: State, a: Action)
    requires Inv(s) && Enabled(s, a)
    ensures Inv(Apply(s, a))
  {
    OwnershipKept(s, a);
    HistoryKept(s, a);
    CountsKept(s, a);
  }

  lemma {:induction false} InvAlways(s: State, run: seq<Action>)
    requires Inv(s) && IsRun(s, run)
    ensures Inv(Exec(s, run))
    decreases |run|
  {
    if run != [] {
      InvKept(s, run[0]);
      InvAlways(Apply(s, run[0]), run[1..]);
    }
  }
}
