/** What holds of every interleaved run of the cache: the index and the cache agree, the
    LRU bookkeeping is exact, and the number of entries is bounded. */
module CacheTheorems {
  import opened CacheRun
  import opened Maps
  import opened PartitionedIndex
  import opened SemanticCache

  ghost predicate IsRun(cfg: Config, s: State, actions: seq<Action>)
    decreases |actions|
  {
    actions == [] || (Enabled(cfg, s, actions[0]) && IsRun(cfg, Step(cfg, s, actions[0]), actions[1..]))
  }

  ghost function End(cfg: Config, s: State, actions: seq<Action>): State
    requires IsRun(cfg, s, actions)
    decreases |actions|
  {
    if actions == [] then s else End(cfg, Step(cfg, s, actions[0]), actions[1..])
  }

  lemma InitialInvariant(cfg: Config)
    ensures Invariant(cfg, INITIAL)
  {
  }

  lemma {:induction false} RunKeepsInvariant(cfg: Config, s: State, actions: seq<Action>)
    requires Invariant(cfg, s) && IsRun(cfg, s, actions)
    ensures Invariant(cfg, End(cfg, s, actions))
    decreases |actions|
  {
    if actions != [] {
      StepKeepsAgreement(cfg, s, actions[0]);
      StepKeepsBookkeeping(cfg, s, actions[0]);
      RunKeepsInvariant(cfg, Step(cfg, s, actions[0]), actions[1..]);
    }
  }

  /** In every run every cached entry has its vector in the partition its key resolves to;
      whenever nothing is in flight, the stored ids are exactly the cached ids. */
  lemma CacheAndIndexAgree(cfg: Config, actions: seq<Action>)
    requires IsRun(cfg, INITIAL, actions)
    ensures var s := End(cfg, INITIAL, actions);
            && (forall id <- s.cache.entries :: id in Lookup(s.index, cfg.maxPartitions, s.cache.entries[id].put.key))
            && (s.ops == map[] ==>
                  && (forall id :: id in s.cache.entries <==> exists k <- s.index :: id in s.index[k])
                  && (forall k <- s.index, id <- s.index[k] :: k == Home(cfg, s.index, s.cache.entries[id].put.key)))
  {
    InitialInvariant(cfg);
    RunKeepsInvariant(cfg, INITIAL, actions);
    var s := End(cfg, INITIAL, actions);
    assert forall id <- s.cache.entries :: Placed(cfg, s.index, id, s.cache.entries[id].put.key);
    if s.ops == map[] {
      QuiescentAgreement(cfg, s);
    }
  }

  /** In every run the three LRU structures hold the same ids once each, newest first, so
      the next eviction takes an entry with the least last access. */
  lemma LruIsExact(cfg: Config, actions: seq<Action>)
    requires IsRun(cfg, INITIAL, actions)
    ensures var c := End(cfg, INITIAL, actions).cache;
            && SameIds(c.entries, c.lru, c.lruMap) && NewestFirst(c.lru, c.entries)
            && (c.entries != map[] ==>
                  && c.lru != []
                  && var oldest := c.lru[|c.lru| - 1];
                     && oldest in c.entries
                     && EvictLru(c).removals == map[oldest := c.entries[oldest].put.key]
                     && forall id <- c.entries :: c.entries[oldest].lastAccessed <= c.entries[id].lastAccessed)
  {
    InitialInvariant(cfg);
    RunKeepsInvariant(cfg, INITIAL, actions);
    var s := End(cfg, INITIAL, actions);
    if s.cache.entries != map[] {
      EvictLruDropsOldest(s.cache, s.now);
    }
  }

  // ---------------------------------------------------------------- size

  predicate IsPut(op: Op) {
    op.PutReady? || op.PutFlush? || op.PutInserted?
  }

  ghost function Puts(ops: map<nat, Op>): set<nat> {
    set t <- ops | IsPut(ops[t])
  }

  /** Puts that went through phase 1 and have not committed yet. */
  ghost function Admitted(ops: map<nat, Op>): set<nat> {
    set t <- ops | ops[t].PutFlush? || ops[t].PutInserted?
  }

  ghost predicate AtMostPuts(cfg: Config, s: State, actions: seq<Action>, k: nat)
    requires IsRun(cfg, s, actions)
    decreases |actions|
  {
    |Puts(s.ops)| <= k && (actions != [] ==> AtMostPuts(cfg, Step(cfg, s, actions[0]), actions[1..], k))
  }

  ghost predicate Bounded(cfg: Config, s: State, k: nat) {
    |s.cache.entries| + |Admitted(s.ops)| <= cfg.limits.maxEntries + k - 1
  }

  lemma AdmittedArePuts(ops: map<nat, Op>)
    ensures |Admitted(ops)| <= |Puts(ops)|
  {
    SubsetSize(Admitted(ops), Puts(ops));
  }

  lemma AllocateAdmits(cfg: Config, s: State, t: nat)
    requires t in s.ops && s.ops[t].PutReady?
    ensures var s' := Step(cfg, s, Locked(t));
            |Admitted(s'.ops)| == |Admitted(s.ops)| + 1 <= |Puts(s'.ops)|
            && s'.cache.entries == MakeRoom(s.cache, cfg.limits, s.now).cache.entries
  {
    var s' := Step(cfg, s, Locked(t));
    AdmittedArePuts(s'.ops);
    assert Admitted(s'.ops) == Admitted(s.ops) + {t};
  }

  lemma AllocateBounded(cfg: Config, s: State, t: nat, k: nat)
    requires WellFormed(s.cache, s.now) && Bounded(cfg, s, k) && cfg.limits.maxEntries >= 1
    requires t in s.ops && s.ops[t].PutReady? && |Puts(Step(cfg, s, Locked(t)).ops)| <= k
    ensures Bounded(cfg, Step(cfg, s, Locked(t)), k)
  {
    MakeRoomKeeps(s.cache, cfg.limits, s.now);
    AllocateAdmits(cfg, s, t);
  }

  lemma CommitAdmits(ops: map<nat, Op>, t: nat)
    requires t in ops && ops[t].PutInserted?
    ensures |Admitted(ops - {t})| == |Admitted(ops)| - 1
  {
    assert Admitted(ops - {t}) == Admitted(ops) - {t};
    assert t in Admitted(ops);
  }

  lemma CommitBounded(cfg: Config, s: State, t: nat, k: nat)
    requires Bounded(cfg, s, k) && t in s.ops && s.ops[t].PutInserted? && s.ops[t].id !in s.cache.entries
    ensures Bounded(cfg, Step(cfg, s, Locked(t)), k)
  {
    CommitAdmits(s.ops, t);
    OneMore(s.cache.entries, s.ops[t].id, Entry(s.ops[t].put, s.now, s.now));
  }

  /** All other steps keep or shrink both counts. */
  lemma ShrinkBounded(cfg: Config, s: State, s': State, k: nat)
    requires Bounded(cfg, s, k) && Admitted(s'.ops) <= Admitted(s.ops) && s'.cache.entries.Keys <= s.cache.entries.Keys
    ensures Bounded(cfg, s', k)
  {
    SubsetSize(Admitted(s'.ops), Admitted(s.ops));
    SubsetSize(s'.cache.entries.Keys, s.cache.entries.Keys);
    SizeOfKeys(s'.cache.entries);
    SizeOfKeys(s.cache.entries);
  }

  lemma OtherSectionShrinks(cfg: Config, s: State, t: nat)
    requires Enabled(cfg, s, Locked(t)) && !IsPut(s.ops[t])
    ensures var s' := Step(cfg, s, Locked(t));
            Admitted(s'.ops) <= Admitted(s.ops) && s'.cache.entries.Keys <= s.cache.entries.Keys
  {
    var s' := Step(cfg, s, Locked(t));
    assert forall u <- s'.ops :: (u != t && u in s.ops && s'.ops[u] == s.ops[u]) || s'.ops[u].Flush?;
    EvictExpiredDrops(s.cache, cfg.limits, s.now);
  }

  lemma IndexCallShrinks(cfg: Config, s: State, a: Action)
    requires Enabled(cfg, s, a) && !a.Locked?
    ensures var s' := Step(cfg, s, a);
            Admitted(s'.ops) <= Admitted(s.ops) && s'.cache == s.cache
  {
  }

  lemma StepBounded(cfg: Config, s: State, a: Action, k: nat)
    requires Invariant(cfg, s) && Bounded(cfg, s, k) && cfg.limits.maxEntries >= 1 && Enabled(cfg, s, a)
    requires |Puts(Step(cfg, s, a).ops)| <= k
    ensures Bounded(cfg, Step(cfg, s, a), k)
  {
    if a.Locked? && s.ops[a.t].PutReady? {
      AllocateBounded(cfg, s, a.t, k);
    } else if a.Locked? && s.ops[a.t].PutInserted? {
      CommitKeepsAgreement(cfg, s, a.t);
      CommitBounded(cfg, s, a.t, k);
    } else {
      if a.Locked? {
        OtherSectionShrinks(cfg, s, a.t);
      } else {
        IndexCallShrinks(cfg, s, a);
      }
      ShrinkBounded(cfg, s, Step(cfg, s, a), k);
    }
  }

  lemma {:induction false} RunBounded(cfg: Config, s: State, actions: seq<Action>, k: nat)
    requires Invariant(cfg, s) && Bounded(cfg, s, k) && cfg.limits.maxEntries >= 1
    requires IsRun(cfg, s, actions) && AtMostPuts(cfg, s, actions, k)
    ensures Bounded(cfg, End(cfg, s, actions), k)
    decreases |actions|
  {
    if actions != [] {
      StepBounded(cfg, s, actions[0], k);
      StepKeepsAgreement(cfg, s, actions[0]);
      StepKeepsBookkeeping(cfg, s, actions[0]);
      RunBounded(cfg, Step(cfg, s, actions[0]), actions[1..], k);
    }
  }

  /** With at most `k` puts in flight at any moment the cache exceeds its limit by at most
      `k - 1` entries; with one put at a time, never. */
  lemma SizeIsBounded(cfg: Config, actions: seq<Action>, k: nat)
    requires cfg.limits.maxEntries >= 1 && k >= 1
    requires IsRun(cfg, INITIAL, actions) && AtMostPuts(cfg, INITIAL, actions, k)
    ensures |End(cfg, INITIAL, actions).cache.entries| <= cfg.limits.maxEntries + k - 1
  {
    InitialInvariant(cfg);
    assert Admitted(INITIAL.ops) == {};
    RunBounded(cfg, INITIAL, actions, k);
  }
}
