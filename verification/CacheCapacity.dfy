/** What the capacity of the index means for the cache that is assembled over it. */
module CacheCapacity {
  import opened AssembledCache
  import opened CacheRun
  import opened Maps
  import opened PartitionedIndex
  import opened PartitionedStore
  import opened SemanticCache
  import VectorIndex

  // ---------------------------------------------------------------- all slots together

  lemma VectorsFit(ix: VectorIndex.Index)
    requires VectorIndex.Valid(ix)
    ensures |VectorIndex.Vectors(ix)| <= VectorIndex.ElementCount(ix)
  {
    VectorIndex.EveryIdHasAVector(ix);
    InjectionFits(VectorIndex.Vectors(ix).Keys, ix.labels.idToLabel, ix.points.Keys);
    SizeOfKeys(VectorIndex.Vectors(ix));
    SizeOfKeys(ix.points);
  }

  /** The ids of each partition. */
  ghost function IdsOf(p: Parts): map<Key, set<Id>> {
    map k <- p :: VectorIndex.Vectors(p[k]).Keys
  }

  lemma PartsAreSmall(geo: Geometry, p: Parts)
    requires AllValid(p, geo.dim, geo.capacity)
    ensures AllSmall(IdsOf(p), p.Keys, geo.capacity)
  {
    forall k <- p.Keys ensures |IdsOf(p)[k]| <= geo.capacity {
      assert ValidPart(p[k], geo.dim, geo.capacity);
      VectorsFit(p[k]);
      SizeOfKeys(VectorIndex.Vectors(p[k]));
    }
  }

  lemma EntriesAreHeld(cfg: Config, geo: Geometry, w: Whole)
    requires EntriesPlaced(cfg, w.state) && ViewOf(w.parts) == w.state.index
    ensures forall id <- w.state.cache.entries.Keys :: HeldBy(IdsOf(w.parts), w.parts.Keys, id)
  {
    SizeIsKeys(w.parts);
    forall id <- w.state.cache.entries.Keys ensures HeldBy(IdsOf(w.parts), w.parts.Keys, id) {
      var key := w.state.cache.entries[id].put.key;
      assert Placed(cfg, w.state.index, id, key);
      assert id in IdsOf(w.parts)[Home(cfg, w.state.index, key)];
    }
  }

  lemma MulMonotone(a: nat, b: nat, c: nat)
    requires a <= b
    ensures a * c <= b * c
  {
    assert b * c == a * c + (b - a) * c;
  }

  lemma EntriesFit(cfg: Config, geo: Geometry, w: Whole)
    requires EntriesPlaced(cfg, w.state) && Linked(cfg, geo, w)
    ensures |w.state.cache.entries| <= (cfg.maxPartitions + 1) * geo.capacity
  {
    EntriesAreHeld(cfg, geo, w);
    PartsAreSmall(geo, w.parts);
    SpreadFits(IdsOf(w.parts), w.parts.Keys, w.state.cache.entries.Keys, geo.capacity);
    SizeOfKeys(w.state.cache.entries);
    TimesIsProduct(|w.parts.Keys|, geo.capacity);
    MulMonotone(|w.parts.Keys|, cfg.maxPartitions + 1, geo.capacity);
  }

  /** In no run does the cache hold more entries than the index has slots, those of the
      overflow partition included. */
  lemma SlotsBoundEntries(cfg: Config, geo: Geometry, actions: seq<Action>)
    requires IsWholeRun(cfg, geo, START, actions)
    ensures |WholeEnd(cfg, geo, START, actions).state.cache.entries| <= (cfg.maxPartitions + 1) * geo.capacity
  {
    StartIsSound(cfg, geo);
    RunKeepsSound(cfg, geo, START, actions);
    EntriesFit(cfg, geo, WholeEnd(cfg, geo, START, actions));
  }

  // ---------------------------------------------------------------- a full partition

  lemma StepKeepsFull(cfg: Config, geo: Geometry, w: Whole, a: Action, p: Key)
    requires AllValid(w.parts, geo.dim, geo.capacity) && Enabled(cfg, w.state, a) && Full(geo, w.parts, p)
    ensures Full(geo, NextWhole(cfg, geo, w, a).parts, p)
  {
    match a
    case InsertVector(t, _) =>
      var op := w.state.ops[t];
      InsertKeepsFull(geo, w.parts, cfg.maxPartitions, op.put.key, op.id, cfg.embed(op.put.prompt), p);
    case RemoveVector(t, id) =>
      RemoveKeepsFull(geo, w.parts, cfg.maxPartitions, Pending(w.state.ops[t])[id], id, p);
    case _ =>
  }

  lemma FlushIsUnused(cfg: Config, s: State, t: nat)
    requires OpsOk(cfg, s) && t in s.ops && s.ops[t].PutFlush?
    ensures Unused(s, s.ops[t].id)
  {
    assert OpOk(cfg, s, s.ops[t]);
  }

  /** A full partition accepts no new id. */
  lemma FullRefuses(geo: Geometry, p: Parts, maxPartitions: nat, key: Key, id: Id, vec: Vec)
    requires AllValid(p, geo.dim, geo.capacity)
    requires var home := ResolveKey(p.Keys, maxPartitions, key); Full(geo, p, home) && id !in ViewOf(p)[home]
    ensures !InsertInto(geo, p, maxPartitions, key, id, vec).1
  {
    InsertIntoIs(geo, p, maxPartitions, key, id, vec);
  }

  lemma InsertRefused(cfg: Config, geo: Geometry, w: Whole, op: Op)
    requires Linked(cfg, geo, w) && op.PutFlush? && Unused(w.state, op.id)
    requires Full(geo, w.parts, Home(cfg, w.state.index, op.put.key))
    ensures !Inserting(cfg, geo, w, op).1
  {
    SizeIsKeys(w.parts);
    assert op.id !in w.state.index[Home(cfg, w.state.index, op.put.key)];
    FullRefuses(geo, w.parts, cfg.maxPartitions, op.put.key, op.id, cfg.embed(op.put.prompt));
  }

  /** A put whose vector is stored and which has still to commit. */
  ghost predicate Committing(ops: map<nat, Op>, id: Id, put: Put) {
    exists t :: t in ops && ops[t] == PutInserted(put, id)
  }

  lemma LockedIsQuiet(cfg: Config, s: State, t: nat)
    requires Enabled(cfg, s, Locked(t))
    ensures var s' := Step(cfg, s, Locked(t));
            s'.index == s.index && forall u <- s'.ops :: s'.ops[u].PutInserted? ==> u in s.ops && s'.ops[u] == s.ops[u]
  {
  }

  lemma InsertedBefore(cfg: Config, s: State, a: Action, t: nat)
    requires Enabled(cfg, s, a) && t in Step(cfg, s, a).ops && Step(cfg, s, a).ops[t].PutInserted?
    ensures var op := Step(cfg, s, a).ops[t];
            && t in s.ops
            && (s.ops[t] == op || (a == InsertVector(t, true) && s.ops[t].PutFlush? && s.ops[t].put == op.put))
  {
    if a.Locked? {
      LockedIsQuiet(cfg, s, a.t);
    }
  }

  lemma CommittingBefore(cfg: Config, geo: Geometry, w: Whole, a: Action, p: Key, id: Id, put: Put)
    requires Linked(cfg, geo, w) && OpsOk(cfg, w.state) && MayStep(cfg, geo, w, a) && Full(geo, w.parts, p)
    requires Home(cfg, w.state.index, put.key) == p && Committing(Step(cfg, w.state, a).ops, id, put)
    ensures Committing(w.state.ops, id, put)
  {
    var s := w.state;
    var t :| t in Step(cfg, s, a).ops && Step(cfg, s, a).ops[t] == PutInserted(put, id);
    InsertedBefore(cfg, s, a, t);
    if s.ops[t].PutFlush? {
      FlushIsUnused(cfg, s, t);
      InsertRefused(cfg, geo, w, s.ops[t]);
    }
  }

  lemma HomeStays(cfg: Config, s: State, a: Action, key: Key)
    requires Enabled(cfg, s, a) && Home(cfg, s.index, key) in s.index
    ensures Home(cfg, Step(cfg, s, a).index, key) == Home(cfg, s.index, key)
  {
    match a
    case InsertVector(t, accepted) =>
      var put := s.ops[t].put;
      ResolutionIsStable(s.index.Keys, cfg.maxPartitions, key, put.key);
      assert Step(cfg, s, a).index.Keys == s.index.Keys + {InsertTarget(s.index.Keys, cfg.maxPartitions, put.key)};
    case Locked(t) =>
      LockedIsQuiet(cfg, s, t);
    case _ =>
      assert Step(cfg, s, a).index.Keys == s.index.Keys;
  }

  lemma StoredWasCommitting(cfg: Config, s: State, a: Action)
    requires Enabled(cfg, s, a)
    ensures var log := Step(cfg, s, a).log;
            && s.log <= log
            && forall i :: |s.log| <= i < |log| && log[i].Stored? ==> Committing(s.ops, log[i].id, log[i].put)
  {
    var log := Step(cfg, s, a).log;
    forall i | |s.log| <= i < |log| && log[i].Stored? ensures Committing(s.ops, log[i].id, log[i].put) {
      assert a.Locked? && s.ops[a.t] == PutInserted(log[i].put, log[i].id);
    }
  }

  /** From position `from` on, the log stores nothing under a key that resolves to `p`
      except for puts that had stored their vector. */
  ghost predicate OnlyCommitting(cfg: Config, s: State, p: Key, log: seq<Event>, from: nat) {
    forall i :: from <= i < |log| && log[i].Stored? && Home(cfg, s.index, log[i].put.key) == p
      ==> Committing(s.ops, log[i].id, log[i].put)
  }

  lemma OnlyCommittingBefore(cfg: Config, geo: Geometry, w: Whole, a: Action, p: Key, log: seq<Event>)
    requires Linked(cfg, geo, w) && OpsOk(cfg, w.state) && MayStep(cfg, geo, w, a) && Full(geo, w.parts, p)
    requires var next := Step(cfg, w.state, a); next.log <= log && OnlyCommitting(cfg, next, p, log, |next.log|)
    ensures w.state.log <= log && OnlyCommitting(cfg, w.state, p, log, |w.state.log|)
  {
    var s, next := w.state, Step(cfg, w.state, a);
    StoredWasCommitting(cfg, s, a);
    SizeIsKeys(w.parts);
    forall i | |s.log| <= i < |log| && log[i].Stored? && Home(cfg, s.index, log[i].put.key) == p
      ensures Committing(s.ops, log[i].id, log[i].put)
    {
      if i < |next.log| {
        assert log[i] == next.log[i];
      } else {
        HomeStays(cfg, s, a, log[i].put.key);
        CommittingBefore(cfg, geo, w, a, p, log[i].id, log[i].put);
      }
    }
  }

  lemma {:induction false} FullTakesNothing(cfg: Config, geo: Geometry, w: Whole, actions: seq<Action>, p: Key)
    requires Sound(cfg, geo, w) && IsWholeRun(cfg, geo, w, actions) && Full(geo, w.parts, p)
    ensures var e := WholeEnd(cfg, geo, w, actions);
            && Full(geo, e.parts, p)
            && w.state.log <= e.state.log
            && OnlyCommitting(cfg, w.state, p, e.state.log, |w.state.log|)
    decreases |actions|
  {
    if actions != [] {
      var a := actions[0];
      StepKeepsFull(cfg, geo, w, a, p);
      StepKeepsSound(cfg, geo, w, a);
      FullTakesNothing(cfg, geo, NextWhole(cfg, geo, w, a), actions[1..], p);
      OnlyCommittingBefore(cfg, geo, w, a, p, WholeEnd(cfg, geo, w, actions).state.log);
    }
  }

  /** Once a partition has used all its slots it takes nothing more, for the rest of every
      interleaved run and however many vectors are removed from it: every put under a key
      that resolves to it is dropped, except those whose vector was stored before. */
  lemma FullPartitionDropsPuts(cfg: Config, geo: Geometry, past: seq<Action>, actions: seq<Action>, p: Key)
    requires IsWholeRun(cfg, geo, START, past)
    requires var w := WholeEnd(cfg, geo, START, past); Full(geo, w.parts, p) && IsWholeRun(cfg, geo, w, actions)
    ensures var w := WholeEnd(cfg, geo, START, past);
            var e := WholeEnd(cfg, geo, w, actions);
            && Full(geo, e.parts, p)
            && w.state.log <= e.state.log
            && OnlyCommitting(cfg, w.state, p, e.state.log, |w.state.log|)
  {
    StartIsSound(cfg, geo);
    RunKeepsSound(cfg, geo, START, past);
    FullTakesNothing(cfg, geo, WholeEnd(cfg, geo, START, past), actions, p);
  }

  lemma CommittingIsIssued(cfg: Config, s: State, id: Id, put: Put)
    requires AllIssued(s) && OpsOk(cfg, s) && Committing(s.ops, id, put)
    ensures Issued(id, s.cache.seqNo)
  {
    var t :| t in s.ops && s.ops[t] == PutInserted(put, id);
    assert OpOk(cfg, s, s.ops[t]) && id in Owned(s.ops[t]);
  }

  lemma AllocateTakes(cfg: Config, s: State, t: nat)
    requires t in s.ops && s.ops[t].PutReady?
    ensures var s', id := Step(cfg, s, Locked(t)), EntryId(cfg.modelHash(s.ops[t].put.model), s.cache.seqNo);
            && s'.ops[t].PutFlush? && s'.ops[t].put == s.ops[t].put && s'.ops[t].id == id
            && s'.cache.entries == MakeRoom(s.cache, cfg.limits, s.now).cache.entries
            && |s.log| < |s'.log| && s'.log[|s.log|].Gone?
  {
  }

  lemma AllocateIsWasted(cfg: Config, geo: Geometry, w: Whole, t: nat, actions: seq<Action>)
    requires Sound(cfg, geo, w) && t in w.state.ops && w.state.ops[t].PutReady?
    requires Full(geo, w.parts, Home(cfg, w.state.index, w.state.ops[t].put.key))
    requires IsWholeRun(cfg, geo, w, [Locked(t)] + actions)
    ensures var taken := Step(cfg, w.state, Locked(t));
            && taken.ops[t].PutFlush?
            && var log := WholeEnd(cfg, geo, w, [Locked(t)] + actions).state.log;
               forall i :: |w.state.log| <= i < |log| && log[i].Stored? && log[i].put == w.state.ops[t].put
                 ==> log[i].id != taken.ops[t].id
  {
    var s := w.state;
    AllocateTakes(cfg, s, t);
    FullTakesNothing(cfg, geo, w, [Locked(t)] + actions, Home(cfg, s.index, s.ops[t].put.key));
    NextIdIsFresh(cfg.modelHash(s.ops[t].put.model), s.cache.seqNo);
    if Committing(s.ops, Step(cfg, s, Locked(t)).ops[t].id, s.ops[t].put) {
      CommittingIsIssued(cfg, s, Step(cfg, s, Locked(t)).ops[t].id, s.ops[t].put);
      assert false;
    }
  }

  lemma AllocateEvicts(cfg: Config, s: State, t: nat)
    requires WellFormed(s.cache, s.now) && t in s.ops && s.ops[t].PutReady?
    requires |s.cache.entries| >= cfg.limits.maxEntries >= 1
    ensures |Step(cfg, s, Locked(t)).cache.entries| < |s.cache.entries|
  {
    MakeRoomKeeps(s.cache, cfg.limits, s.now);
    AllocateTakes(cfg, s, t);
  }

  /** In every run a put that enters its first phase with a full partition ahead of it is
      never stored, whatever else happens; if the cache is full, it has an entry evicted all
      the same. */
  lemma PutIntoFullCostsAnEntry(cfg: Config, geo: Geometry, past: seq<Action>, t: nat, actions: seq<Action>)
    requires IsWholeRun(cfg, geo, START, past)
    requires var w := WholeEnd(cfg, geo, START, past);
             && IsWholeRun(cfg, geo, w, [Locked(t)] + actions)
             && t in w.state.ops && w.state.ops[t].PutReady?
             && Full(geo, w.parts, Home(cfg, w.state.index, w.state.ops[t].put.key))
    ensures var w := WholeEnd(cfg, geo, START, past);
            var taken := Step(cfg, w.state, Locked(t));
            var log := WholeEnd(cfg, geo, w, [Locked(t)] + actions).state.log;
            && taken.ops[t].PutFlush?
            && (forall i :: |w.state.log| <= i < |log| && log[i].Stored? && log[i].put == w.state.ops[t].put
                  ==> log[i].id != taken.ops[t].id)
            && (|w.state.cache.entries| >= cfg.limits.maxEntries >= 1
                ==> |taken.cache.entries| < |w.state.cache.entries|)
  {
    StartIsSound(cfg, geo);
    RunKeepsSound(cfg, geo, START, past);
    var w := WholeEnd(cfg, geo, START, past);
    AllocateIsWasted(cfg, geo, w, t, actions);
    if |w.state.cache.entries| >= cfg.limits.maxEntries >= 1 {
      AllocateEvicts(cfg, w.state, t);
    }
  }
}
