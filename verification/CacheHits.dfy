/** Every hit of every interleaved run was earned by exactly one earlier put. */
module CacheHits {
  import opened PartitionedIndex
  import opened SemanticCache
  import opened CacheRun
  import opened CacheTheorems

  // ---------------------------------------------------------------- the claim

  ghost predicate StoredAs(log: seq<Event>, j: int, id: Id, put: Put, at: int) {
    0 <= j < |log| && log[j] == Stored(id, put, at)
  }

  /** `id` did not leave the cache between positions `j` and `i`. */
  ghost predicate KeptBetween(log: seq<Event>, j: int, i: int, id: Id) {
    forall m :: j < m < i && 0 <= m < |log| && log[m].Gone? ==> id !in log[m].ids
  }

  /** The requested and the stored model are the same, or one of them is not given. */
  predicate Compatible(a: string, b: string) {
    a == b || a == "" || b == ""
  }

  ghost predicate EarnedBy(cfg: Config, log: seq<Event>, i: int, j: int) {
    && 0 <= j < i < |log| && log[i].Served? && log[j].Stored? && log[j].id == log[i].id
    && log[j].put.key == log[i].q.key
    && log[j].put.response == log[i].response
    && Compatible(log[i].q.model, log[j].put.model)
    && 0 <= log[i].at - log[j].at <= cfg.limits.ttl
    && KeptBetween(log, j, i, log[i].id)
    && (cfg.threshold > 0.0 ==> cfg.score(cfg.embed(log[i].q.prompt), cfg.embed(log[j].put.prompt)) >= cfg.threshold)
  }

  /** No id is stored twice, and every hit is earned by the put that stored its id: made
      under the requested key, with a compatible model, not expired, not removed since, and
      similar enough. */
  ghost predicate Earned(cfg: Config, log: seq<Event>) {
    && (forall i, j :: 0 <= i < j < |log| && log[i].Stored? && log[j].Stored? ==> log[i].id != log[j].id)
    && (forall i :: 0 <= i < |log| && log[i].Served? ==> exists j :: EarnedBy(cfg, log, i, j))
  }

  // ---------------------------------------------------------------- stored vectors

  /** A stored vector is the embedding of the prompt it was put for. */
  ghost predicate Embedded(cfg: Config, s: State) {
    && (forall k <- s.index, id <- s.index[k] | id in s.cache.entries ::
          s.index[k][id] == cfg.embed(s.cache.entries[id].put.prompt))
    && (forall t <- s.ops | s.ops[t].PutInserted? :: InsertedEmbedded(cfg, s.index, s.ops[t]))
    && (forall t <- s.ops | s.ops[t].GetFound? :: FoundSimilar(cfg, s.ops[t]))
  }

  ghost predicate InsertedEmbedded(cfg: Config, index: Partitions, op: Op)
    requires op.PutInserted?
  {
    forall k <- index | op.id in index[k] :: index[k][op.id] == cfg.embed(op.put.prompt)
  }

  ghost predicate FoundSimilar(cfg: Config, op: Op)
    requires op.GetFound?
  {
    cfg.threshold > 0.0 ==> cfg.score(cfg.embed(op.q.prompt), op.vec) >= cfg.threshold
  }

  ghost predicate SameOpsBut(ops: map<nat, Op>, ops': map<nat, Op>, t: nat) {
    forall u <- ops' :: u != t ==> u in ops && ops'[u] == ops[u]
  }

  /** No entry was added, and those that stay were not rewritten. */
  ghost predicate NoNewEntries(c: Cache, c': Cache) {
    forall id <- c'.entries ::
      id in c.entries && c'.entries[id].put == c.entries[id].put && c'.entries[id].createdAt == c.entries[id].createdAt
  }

  ghost predicate NoNewVectors(index: Partitions, index': Partitions) {
    forall k <- index', id <- index'[k] :: k in index && id in index[k] && index'[k][id] == index[k][id]
  }

  /** Everything but a commit and an accepted insert. */
  lemma EmbeddedStays(cfg: Config, s: State, s': State, t: nat)
    requires Embedded(cfg, s)
    requires SameOpsBut(s.ops, s'.ops, t) && NoNewEntries(s.cache, s'.cache) && NoNewVectors(s.index, s'.index)
    requires t in s'.ops ==> !s'.ops[t].PutInserted? && (s'.ops[t].GetFound? ==> FoundSimilar(cfg, s'.ops[t]))
    ensures Embedded(cfg, s')
  {
    forall u <- s'.ops | s'.ops[u].PutInserted? ensures InsertedEmbedded(cfg, s'.index, s'.ops[u]) {
      assert InsertedEmbedded(cfg, s.index, s.ops[u]);
    }
  }

  /** What a locked section that commits nothing may do. */
  ghost predicate SectionOk(s: State, s': State, t: nat)
    requires t in s.ops
  {
    && s'.index == s.index && SameOpsBut(s.ops, s'.ops, t) && NoNewEntries(s.cache, s'.cache)
    && s.cache.seqNo <= s'.cache.seqNo
    && (t in s'.ops ==> s'.ops[t].Flush? || (s'.ops[t].PutFlush? && s.ops[t].PutReady?))
  }

  lemma AllocateShape(cfg: Config, s: State, t: nat)
    requires WellFormed(s.cache, s.now) && Enabled(cfg, s, Locked(t)) && s.ops[t].PutReady?
    ensures SectionOk(s, Step(cfg, s, Locked(t)), t)
  {
    MakeRoomKeeps(s.cache, cfg.limits, s.now);
    CacheRun.AllocateShape(cfg, s, t);
  }

  lemma SweepShape(cfg: Config, s: State, t: nat)
    requires WellFormed(s.cache, s.now) && Enabled(cfg, s, Locked(t)) && s.ops[t].SweepReady?
    ensures SectionOk(s, Step(cfg, s, Locked(t)), t)
  {
    EvictExpiredDrops(s.cache, cfg.limits, s.now);
  }

  lemma SectionShape(cfg: Config, s: State, t: nat)
    requires WellFormed(s.cache, s.now) && Enabled(cfg, s, Locked(t)) && !s.ops[t].PutInserted?
    ensures SectionOk(s, Step(cfg, s, Locked(t)), t)
  {
    if s.ops[t].PutReady? {
      AllocateShape(cfg, s, t);
    } else if s.ops[t].SweepReady? {
      SweepShape(cfg, s, t);
    }
  }

  lemma CommitKeepsEmbedded(cfg: Config, s: State, t: nat)
    requires Embedded(cfg, s) && t in s.ops && s.ops[t].PutInserted?
    ensures Embedded(cfg, Step(cfg, s, Locked(t)))
  {
    assert InsertedEmbedded(cfg, s.index, s.ops[t]);
  }

  lemma InsertKeepsEmbedded(cfg: Config, s: State, s': State, t: nat)
    requires Embedded(cfg, s) && OpsOk(cfg, s) && t in s.ops && s.ops[t].PutFlush? && Unused(s, s.ops[t].id)
    requires s'.cache == s.cache && s'.ops == s.ops[t := PutInserted(s.ops[t].put, s.ops[t].id)]
    requires forall k <- s'.index, i <- s'.index[k] ::
               if i == s.ops[t].id then s'.index[k][i] == cfg.embed(s.ops[t].put.prompt)
               else k in s.index && i in s.index[k] && s'.index[k][i] == s.index[k][i]
    ensures Embedded(cfg, s')
  {
    forall u <- s'.ops | s'.ops[u].PutInserted? ensures InsertedEmbedded(cfg, s'.index, s'.ops[u]) {
      if u != t {
        assert InsertedEmbedded(cfg, s.index, s.ops[u]);
        assert OpOk(cfg, s, s.ops[u]) && s.ops[u].id in Owned(s.ops[u]);
        assert Placed(cfg, s.index, s.ops[u].id, s.ops[u].put.key);
      }
    }
  }

  lemma InsertedVectors(cfg: Config, s: State, t: nat)
    requires Enabled(cfg, s, InsertVector(t, true)) && Unused(s, s.ops[t].id)
    ensures var s' := Step(cfg, s, InsertVector(t, true));
            forall k <- s'.index, i <- s'.index[k] ::
              if i == s.ops[t].id then s'.index[k][i] == cfg.embed(s.ops[t].put.prompt)
              else k in s.index && i in s.index[k] && s'.index[k][i] == s.index[k][i]
  {
  }

  lemma QuietKeepsEmbedded(cfg: Config, s: State, a: Action)
    requires Embedded(cfg, s) && Enabled(cfg, s, a) && (a.Tick? || a.Begin? || a.Search?)
    ensures Embedded(cfg, Step(cfg, s, a))
  {
    if !a.Tick? {
      EmbeddedStays(cfg, s, Step(cfg, s, a), a.t);
    }
  }

  lemma LockedKeepsEmbedded(cfg: Config, s: State, t: nat)
    requires WellFormed(s.cache, s.now) && Embedded(cfg, s) && Enabled(cfg, s, Locked(t))
    ensures Embedded(cfg, Step(cfg, s, Locked(t)))
  {
    if s.ops[t].PutInserted? {
      CommitKeepsEmbedded(cfg, s, t);
    } else {
      SectionShape(cfg, s, t);
      EmbeddedStays(cfg, s, Step(cfg, s, Locked(t)), t);
    }
  }

  lemma RemoveKeepsEmbedded(cfg: Config, s: State, t: nat, id: Id)
    requires Embedded(cfg, s) && Enabled(cfg, s, RemoveVector(t, id)) && OpOk(cfg, s, s.ops[t])
    ensures Embedded(cfg, Step(cfg, s, RemoveVector(t, id)))
  {
    RemoveStepShape(cfg, s, t, id);
    EmbeddedStays(cfg, s, Step(cfg, s, RemoveVector(t, id)), t);
  }

  lemma InsertStepKeepsEmbedded(cfg: Config, s: State, t: nat, accepted: bool)
    requires Embedded(cfg, s) && OpsOk(cfg, s) && Enabled(cfg, s, InsertVector(t, accepted))
    ensures Embedded(cfg, Step(cfg, s, InsertVector(t, accepted)))
  {
    var s' := Step(cfg, s, InsertVector(t, accepted));
    assert OpOk(cfg, s, s.ops[t]);
    if accepted {
      InsertedVectors(cfg, s, t);
      InsertKeepsEmbedded(cfg, s, s', t);
    } else {
      EmbeddedStays(cfg, s, s', t);
    }
  }

  lemma StepKeepsEmbedded(cfg: Config, s: State, a: Action)
    requires Invariant(cfg, s) && Embedded(cfg, s) && Enabled(cfg, s, a)
    ensures Embedded(cfg, Step(cfg, s, a))
  {
    match a
    case Tick(_) => QuietKeepsEmbedded(cfg, s, a);
    case Begin(_, _) => QuietKeepsEmbedded(cfg, s, a);
    case Search(_, _) => QuietKeepsEmbedded(cfg, s, a);
    case Locked(t) => LockedKeepsEmbedded(cfg, s, t);
    case RemoveVector(t, id) => RemoveKeepsEmbedded(cfg, s, t, id);
    case InsertVector(t, accepted) => InsertStepKeepsEmbedded(cfg, s, t, accepted);
  }

  // ---------------------------------------------------------------- the log tells the truth

  ghost predicate EntryLogged(log: seq<Event>, id: Id, e: Entry) {
    exists j :: StoredAs(log, j, id, e.put, e.createdAt) && KeptBetween(log, j, |log|, id)
  }

  ghost predicate NeverStored(log: seq<Event>, id: Id) {
    forall j :: 0 <= j < |log| && log[j].Stored? ==> log[j].id != id
  }

  ghost predicate Truthful(cfg: Config, s: State) {
    && (forall id <- s.cache.entries :: EntryLogged(s.log, id, s.cache.entries[id]))
    && (forall t <- s.ops | s.ops[t].PutFlush? || s.ops[t].PutInserted? :: NeverStored(s.log, s.ops[t].id))
    && (forall j :: 0 <= j < |s.log| && s.log[j].Stored? ==> Issued(s.log[j].id, s.cache.seqNo))
    && Earned(cfg, s.log)
  }

  lemma LoggedStays(log: seq<Event>, event: Event, id: Id, e: Entry)
    requires EntryLogged(log, id, e) && !(event.Gone? && id in event.ids)
    ensures EntryLogged(log + [event], id, e)
  {
    var j :| StoredAs(log, j, id, e.put, e.createdAt) && KeptBetween(log, j, |log|, id);
    assert StoredAs(log + [event], j, id, e.put, e.createdAt);
    assert KeptBetween(log + [event], j, |log| + 1, id);
  }

  lemma EarnedStays(cfg: Config, log: seq<Event>, event: Event)
    requires Earned(cfg, log)
    requires event.Stored? ==> NeverStored(log, event.id)
    requires event.Served? ==> exists j :: EarnedBy(cfg, log + [event], |log|, j)
    ensures Earned(cfg, log + [event])
  {
    var longer := log + [event];
    forall i | 0 <= i < |longer| && longer[i].Served? ensures exists j :: EarnedBy(cfg, longer, i, j) {
      if i < |log| {
        var j :| EarnedBy(cfg, log, i, j);
        assert KeptBetween(longer, j, i, log[i].id);
        assert EarnedBy(cfg, longer, i, j);
      }
    }
  }

  /** The vector a search found is the embedding of the entry's prompt. */
  lemma FoundVector(cfg: Config, s: State, t: nat)
    requires EntriesPlaced(cfg, s) && Embedded(cfg, s)
    requires t in s.ops && s.ops[t].GetFound? && OpOk(cfg, s, s.ops[t]) && s.ops[t].id in s.cache.entries
    ensures s.ops[t].vec == cfg.embed(s.cache.entries[s.ops[t].id].put.prompt)
  {
    assert Placed(cfg, s.index, s.ops[t].id, s.cache.entries[s.ops[t].id].put.key);
  }

  lemma HitIsEarnedBy(cfg: Config, s: State, q: Query, id: Id, j: int)
    requires Judge(s.cache, cfg.limits, s.now, q, id).Hit? && Timely(s.cache.entries, s.now)
    requires var e := s.cache.entries[id];
             && StoredAs(s.log, j, id, e.put, e.createdAt) && KeptBetween(s.log, j, |s.log|, id)
             && (cfg.threshold > 0.0 ==> cfg.score(cfg.embed(q.prompt), cfg.embed(e.put.prompt)) >= cfg.threshold)
    ensures EarnedBy(cfg, s.log + [Served(q, id, s.cache.entries[id].put.response, s.now)], |s.log|, j)
  {
  }

  /** A hit on a cached entry is earned by the put that stored the entry. */
  lemma HitIsEarned(cfg: Config, s: State, t: nat)
    requires Invariant(cfg, s) && Embedded(cfg, s) && Truthful(cfg, s)
    requires t in s.ops && s.ops[t].GetFound? && Judge(s.cache, cfg.limits, s.now, s.ops[t].q, s.ops[t].id).Hit?
    ensures var GetFound(q, id, _) := s.ops[t];
            exists j :: EarnedBy(cfg, s.log + [Served(q, id, s.cache.entries[id].put.response, s.now)], |s.log|, j)
  {
    var GetFound(q, id, vec) := s.ops[t];
    var e := s.cache.entries[id];
    FoundVector(cfg, s, t);
    assert FoundSimilar(cfg, s.ops[t]);
    assert EntryLogged(s.log, id, e);
    var j :| StoredAs(s.log, j, id, e.put, e.createdAt) && KeptBetween(s.log, j, |s.log|, id);
    HitIsEarnedBy(cfg, s, q, id, j);
  }

  /** Steps that store nothing: the log stays, or records departures or a hit. */
  lemma TruthfulStays(cfg: Config, s: State, s': State, event: Event)
    requires Truthful(cfg, s)
    requires s'.log == s.log || s'.log == s.log + [event]
    requires NoNewEntries(s.cache, s'.cache) && s.cache.seqNo <= s'.cache.seqNo
    requires !event.Stored?
    requires s'.log != s.log && event.Gone? ==> s'.cache.entries.Keys !! event.ids
    requires s'.log != s.log && event.Served? ==> exists j :: EarnedBy(cfg, s'.log, |s.log|, j)
    requires forall u <- s'.ops :: (s'.ops[u].PutFlush? || s'.ops[u].PutInserted?) ==>
               (u in s.ops && (s.ops[u].PutFlush? || s.ops[u].PutInserted?) && s.ops[u].id == s'.ops[u].id) ||
               !Issued(s'.ops[u].id, s.cache.seqNo)
    ensures Truthful(cfg, s')
  {
    forall id <- s'.cache.entries ensures EntryLogged(s'.log, id, s'.cache.entries[id]) {
      assert EntryLogged(s.log, id, s.cache.entries[id]);
      if s'.log != s.log {
        LoggedStays(s.log, event, id, s.cache.entries[id]);
      }
    }
    if s'.log != s.log {
      EarnedStays(cfg, s.log, event);
    }
    forall u <- s'.ops | s'.ops[u].PutFlush? || s'.ops[u].PutInserted? ensures NeverStored(s'.log, s'.ops[u].id) {
      assert u in s.ops && (s.ops[u].PutFlush? || s.ops[u].PutInserted?) ==> NeverStored(s.log, s.ops[u].id);
    }
    assert forall id :: Issued(id, s.cache.seqNo) ==> Issued(id, s'.cache.seqNo);
  }

  /** What a locked section that commits and serves nothing leaves in the log. */
  lemma SectionLog(cfg: Config, s: State, t: nat)
    requires WellFormed(s.cache, s.now) && Enabled(cfg, s, Locked(t)) && !s.ops[t].PutInserted?
    requires s.ops[t].GetFound? ==> !Judge(s.cache, cfg.limits, s.now, s.ops[t].q, s.ops[t].id).Hit?
    ensures var s' := Step(cfg, s, Locked(t));
            s'.log == s.log || (|s'.log| == |s.log| + 1 && s'.log == s.log + [s'.log[|s.log|]]
                                && s'.log[|s.log|].Gone? && s'.cache.entries.Keys !! s'.log[|s.log|].ids)
  {
    if s.ops[t].PutReady? {
      MakeRoomKeeps(s.cache, cfg.limits, s.now);
    } else if s.ops[t].SweepReady? {
      EvictExpiredDrops(s.cache, cfg.limits, s.now);
    }
  }

  lemma CommitLogsEntries(s: State, put: Put, id: Id, event: Event, entries: map<Id, Entry>)
    requires forall i <- s.cache.entries :: EntryLogged(s.log, i, s.cache.entries[i])
    requires event == Stored(id, put, s.now) && entries == s.cache.entries[id := Entry(put, s.now, s.now)]
    ensures forall i <- entries :: EntryLogged(s.log + [event], i, entries[i])
  {
    var log := s.log + [event];
    assert StoredAs(log, |s.log|, id, put, s.now) && KeptBetween(log, |s.log|, |log|, id);
    forall i <- s.cache.entries | i != id ensures EntryLogged(log, i, s.cache.entries[i]) {
      LoggedStays(s.log, event, i, s.cache.entries[i]);
    }
  }

  lemma OthersNeverStored(cfg: Config, s: State, t: nat, u: nat, event: Event)
    requires OpsOk(cfg, s) && t in s.ops && s.ops[t].PutInserted? && u in s.ops && u != t
    requires s.ops[u].PutFlush? || s.ops[u].PutInserted?
    requires NeverStored(s.log, s.ops[u].id) && event == Stored(s.ops[t].id, s.ops[t].put, s.now)
    ensures NeverStored(s.log + [event], s.ops[u].id)
  {
    assert Apart(s.ops[t], s.ops[u]) && OpOk(cfg, s, s.ops[u]);
    InsertedIsOwned(cfg, s, s.ops[t]);
    assert s.ops[t].id in Owned(s.ops[t]);
    assert s.ops[u].PutInserted? ==> s.ops[u].id in Owned(s.ops[u]);
  }

  lemma CommitIsTruthful(cfg: Config, s: State, t: nat)
    requires Truthful(cfg, s) && OpsOk(cfg, s) && AllIssued(s) && t in s.ops && s.ops[t].PutInserted?
    ensures Truthful(cfg, Step(cfg, s, Locked(t)))
  {
    var s' := Step(cfg, s, Locked(t));
    var PutInserted(put, id) := s.ops[t];
    var event := Stored(id, put, s.now);
    InsertedIsOwned(cfg, s, s.ops[t]);
    CommitLogsEntries(s, put, id, event, s'.cache.entries);
    EarnedStays(cfg, s.log, event);
    forall u <- s'.ops | s'.ops[u].PutFlush? || s'.ops[u].PutInserted? ensures NeverStored(s'.log, s'.ops[u].id) {
      OthersNeverStored(cfg, s, t, u, event);
    }
  }

  lemma ServedIsTruthful(cfg: Config, s: State, t: nat, event: Event)
    requires WellFormed(s.cache, s.now) && Truthful(cfg, s)
    requires t in s.ops && s.ops[t].GetFound? && Judge(s.cache, cfg.limits, s.now, s.ops[t].q, s.ops[t].id).Hit?
    requires event == Served(s.ops[t].q, s.ops[t].id, s.cache.entries[s.ops[t].id].put.response, s.now)
    requires exists j :: EarnedBy(cfg, s.log + [event], |s.log|, j)
    ensures Truthful(cfg, Step(cfg, s, Locked(t)))
  {
    SectionShape(cfg, s, t);
    TruthfulStays(cfg, s, Step(cfg, s, Locked(t)), event);
  }

  lemma ServeIsTruthful(cfg: Config, s: State, t: nat)
    requires Invariant(cfg, s) && Embedded(cfg, s) && Truthful(cfg, s)
    requires t in s.ops && s.ops[t].GetFound? && Judge(s.cache, cfg.limits, s.now, s.ops[t].q, s.ops[t].id).Hit?
    ensures Truthful(cfg, Step(cfg, s, Locked(t)))
  {
    HitIsEarned(cfg, s, t);
    ServedIsTruthful(cfg, s, t, Served(s.ops[t].q, s.ops[t].id, s.cache.entries[s.ops[t].id].put.response, s.now));
  }

  lemma SectionIsTruthful(cfg: Config, s: State, t: nat)
    requires WellFormed(s.cache, s.now) && Truthful(cfg, s) && Enabled(cfg, s, Locked(t)) && !s.ops[t].PutInserted?
    requires s.ops[t].GetFound? ==> !Judge(s.cache, cfg.limits, s.now, s.ops[t].q, s.ops[t].id).Hit?
    ensures Truthful(cfg, Step(cfg, s, Locked(t)))
  {
    var s' := Step(cfg, s, Locked(t));
    SectionShape(cfg, s, t);
    SectionLog(cfg, s, t);
    if s.ops[t].PutReady? {
      NextIdIsFresh(cfg.modelHash(s.ops[t].put.model), s.cache.seqNo);
    }
    TruthfulStays(cfg, s, s', if s'.log == s.log then Gone({}) else s'.log[|s.log|]);
  }

  lemma OtherIsTruthful(cfg: Config, s: State, a: Action)
    requires Truthful(cfg, s) && Enabled(cfg, s, a) && !a.Locked?
    ensures Truthful(cfg, Step(cfg, s, a))
  {
    TruthfulStays(cfg, s, Step(cfg, s, a), Gone({}));
  }

  lemma StepKeepsTruth(cfg: Config, s: State, a: Action)
    requires Invariant(cfg, s) && Embedded(cfg, s) && Truthful(cfg, s) && Enabled(cfg, s, a)
    ensures Truthful(cfg, Step(cfg, s, a))
  {
    if a.Locked? {
      if s.ops[a.t].PutInserted? {
        CommitIsTruthful(cfg, s, a.t);
      } else if s.ops[a.t].GetFound? && Judge(s.cache, cfg.limits, s.now, s.ops[a.t].q, s.ops[a.t].id).Hit? {
        ServeIsTruthful(cfg, s, a.t);
      } else {
        SectionIsTruthful(cfg, s, a.t);
      }
    } else {
      OtherIsTruthful(cfg, s, a);
    }
  }

  lemma {:induction false} RunKeepsTruth(cfg: Config, s: State, actions: seq<Action>)
    requires Invariant(cfg, s) && Embedded(cfg, s) && Truthful(cfg, s) && IsRun(cfg, s, actions)
    ensures Truthful(cfg, End(cfg, s, actions))
    decreases |actions|
  {
    if actions != [] {
      StepKeepsAgreement(cfg, s, actions[0]);
      StepKeepsBookkeeping(cfg, s, actions[0]);
      StepKeepsEmbedded(cfg, s, actions[0]);
      StepKeepsTruth(cfg, s, actions[0]);
      RunKeepsTruth(cfg, Step(cfg, s, actions[0]), actions[1..]);
    }
  }

  /** The hit property over every interleaved run. */
  lemma HitsAreEarned(cfg: Config, actions: seq<Action>)
    requires IsRun(cfg, INITIAL, actions)
    ensures Earned(cfg, End(cfg, INITIAL, actions).log)
  {
    InitialInvariant(cfg);
    RunKeepsTruth(cfg, INITIAL, actions);
  }

  lemma {:induction false} RunKeepsEmbedded(cfg: Config, s: State, actions: seq<Action>)
    requires Invariant(cfg, s) && Embedded(cfg, s) && IsRun(cfg, s, actions)
    ensures Invariant(cfg, End(cfg, s, actions)) && Embedded(cfg, End(cfg, s, actions))
    decreases |actions|
  {
    if actions != [] {
      StepKeepsAgreement(cfg, s, actions[0]);
      StepKeepsBookkeeping(cfg, s, actions[0]);
      StepKeepsEmbedded(cfg, s, actions[0]);
      RunKeepsEmbedded(cfg, Step(cfg, s, actions[0]), actions[1..]);
    }
  }
}
