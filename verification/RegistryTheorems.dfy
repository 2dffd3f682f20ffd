/**
 The registry `nodes` as a fold of its history.

 Removal on disconnect and by pruning is by id, not by session.  So an entry always stands for
 a session that has not unregistered, but a live session may have lost its entry.
 */
module RegistryTheorems {
  import opened Offers
  import opened OfferInvariants

  /** `nodes` maps `id` to session `sid` exactly if registering `sid` was the last thing that
      happened to `id`: nothing was registered, unregistered or pruned under this id since. */
  lemma EntryIsLastWord(run: seq<Action>, id: string, sid: nat)
    requires IsRun(INIT, run)
    ensures var s := Exec(INIT, run);
            (id in s.nodes && s.nodes[id] == sid) <==>
            (exists k: nat :: LastWord(s.log, id, k) && s.log[k] == Registered(id, sid))
  {
    InvInit();
    InvAlways(INIT, run);
    var s := Exec(INIT, run);
    if id in s.nodes {
      assert EntryOk(s, id);
    }
    forall k: nat | LastWord(s.log, id, k) && s.log[k] == Registered(id, sid)
      ensures id in s.nodes && s.nodes[id] == sid
    {
      assert EventOk(s, k);
    }
  }

  /** Every entry belongs to a session with that id that has not unregistered and whose
      connection is not closed by the coordinator. */
  lemma EntriesAreLive(run: seq<Action>, id: string)
    requires IsRun(INIT, run) && id in Exec(INIT, run).nodes
    ensures var s := Exec(INIT, run);
            var sid := s.nodes[id];
            sid < |s.sessions| && s.sessions[sid].id == id && !s.sessions[sid].reader.Gone? && !s.sessions[sid].closed
            && Unregistered(id, sid) !in s.log
  {
    InvInit();
    InvAlways(INIT, run);
    var s := Exec(INIT, run);
    assert EntryOk(s, id);
    LiveNotUnregistered(s, s.nodes[id]);
  }

  lemma LiveNotUnregistered(s: State, sid: nat)
    requires History(s) && sid < |s.sessions| && !s.sessions[sid].reader.Gone?
    ensures forall m: nat :: m < |s.log| && s.log[m].Unregistered? ==> s.log[m].sid != sid
  {
    forall m: nat | m < |s.log| && s.log[m].Unregistered? ensures s.log[m].sid != sid {
      assert EventOk(s, m);
    }
  }

  /** The other direction is false: an old session of the same id that disconnects takes the new
      session's entry with it. */
  lemma LiveSessionWithoutEntry() returns (run: seq<Action>)
    ensures IsRun(INIT, run)
    ensures var s := Exec(INIT, run);
            |s.sessions| == 2 && s.sessions[1].reader.Reading? && s.sessions[1].id !in s.nodes
  {
    var a, b, c, d := Register("x", [], true, 0.0), Register("x", [], true, 1.0), ReaderExit(0), Unregister(0);
    run := [a, b, c, d];
    var s1 := Apply(INIT, a);
    var s2 := Apply(s1, b);
    var s3 := Apply(s2, c);
    var s4 := Apply(s3, d);
    assert run[1..] == [b, c, d] && run[1..][1..] == [c, d] && run[1..][1..][1..] == [d];
    assert run[1..][1..][1..][1..] == [];
    assert IsRun(s4, []) && Exec(s4, []) == s4;
    assert IsRun(s3, [d]) && Exec(s3, [d]) == s4;
    assert IsRun(s2, [c, d]) && Exec(s2, [c, d]) == s4;
    assert IsRun(s1, [b, c, d]) && Exec(s1, [b, c, d]) == s4;
  }

  /** Exactly when a registered session has its entry: nothing happened under its id since. */
  lemma SessionHasEntry(run: seq<Action>, sid: nat, k: nat)
    requires IsRun(INIT, run) && sid < |Exec(INIT, run).sessions|
    requires k < |Exec(INIT, run).log| && Exec(INIT, run).log[k] == Registered(Exec(INIT, run).sessions[sid].id, sid)
    ensures var s := Exec(INIT, run);
            var id := s.sessions[sid].id;
            (id in s.nodes && s.nodes[id] == sid) <==> (forall j :: k < j < |s.log| ==> !Concerns(s.log[j], id))
  {
    EntryIsLastWord(run, Exec(INIT, run).sessions[sid].id, sid);
    InvInit();
    InvAlways(INIT, run);
    var s := Exec(INIT, run);
    var id := s.sessions[sid].id;
    if j: nat :| LastWord(s.log, id, j) && s.log[j] == Registered(id, sid) {
      assert EventOk(s, j) && EventOk(s, k);
    }
    if forall j :: k < j < |s.log| ==> !Concerns(s.log[j], id) {
      assert LastWord(s.log, id, k);
    }
  }

  /** No tick of the prune loop removes anything, and nothing registers under an id whose previous
      session has not unregistered. */
  ghost predicate NoOverlap(log: seq<RegEvent>) {
    && (forall k: nat :: k < |log| && log[k].Pruned? ==> log[k].ids == {})
    && (forall j: nat, k: nat ::
          j < k < |log| && log[j].Registered? && log[k].Registered? && log[j].id == log[k].id ==>
          exists m: nat :: j < m < k && log[m] == Unregistered(log[j].id, log[j].sid))
  }

  /** Under that hypothesis nothing that follows a live session's registration concerns its id. */
  lemma LiveIsLast(s: State, sid: nat, k: nat, j: nat)
    requires History(s) && NoOverlap(s.log)
    requires sid < |s.sessions| && !s.sessions[sid].reader.Gone?
    requires k < |s.log| && s.log[k] == Registered(s.sessions[sid].id, sid)
    requires k < j < |s.log|
    ensures !Concerns(s.log[j], s.sessions[sid].id)
  {
    var id := s.sessions[sid].id;
    LiveNotUnregistered(s, sid);
    assert EventOk(s, j);
    if s.log[j].Unregistered? && s.log[j].id == id {
      var other := s.log[j].sid;
      var i: nat :| i < j && s.log[i] == Registered(id, other);
      forall m: nat | m < j ensures s.log[m] != Unregistered(id, other) {
        assert EventOk(s, m);
      }
    }
  }

  /** If sessions of one id do not overlap and nothing is pruned, the registry is exactly the set
      of live sessions. */
  lemma EntriesAreTheLiveSessions(run: seq<Action>, sid: nat)
    requires IsRun(INIT, run) && sid < |Exec(INIT, run).sessions| && NoOverlap(Exec(INIT, run).log)
    ensures var s := Exec(INIT, run);
            var id := s.sessions[sid].id;
            (id in s.nodes && s.nodes[id] == sid) <==> !s.sessions[sid].reader.Gone?
  {
    InvInit();
    InvAlways(INIT, run);
    var s := Exec(INIT, run);
    var id := s.sessions[sid].id;
    assert Enrolled(s, sid);
    if id in s.nodes && s.nodes[id] == sid { EntriesAreLive(run, id); }
    if !s.sessions[sid].reader.Gone? {
      var k: nat :| k < |s.log| && s.log[k] == Registered(id, sid);
      forall j | k < j < |s.log| ensures !Concerns(s.log[j], id) { LiveIsLast(s, sid, k, j); }
      SessionHasEntry(run, sid, k);
    }
  }
}
