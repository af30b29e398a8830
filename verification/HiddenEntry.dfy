/** A cached entry can be hidden by a nearer one of another key: once keys share the overflow
    partition, the one result that the search returns may belong to a stranger, and then the
    request misses although an entry suits it. */
module HiddenEntry {
  import opened AssembledCache
  import opened CacheHits
  import opened CacheRun
  import opened CacheSearch
  import opened CacheSize
  import opened CacheTheorems
  import opened Maps
  import opened PartitionedIndex
  import opened PartitionedStore
  import opened SemanticCache
  import opened Wrappers
  import VectorIndex

  /** After the run `past` the request of `t` waits, entry `mine` suits it, and whatever
      nearest vector its search returns, no entry is served. */
  ghost predicate Hidden(cfg: Config, geo: Geometry, past: seq<Action>, t: nat, q: Query, mine: Id) {
    && IsWholeRun(cfg, geo, START, past)
    && var s := WholeEnd(cfg, geo, START, past).state;
       && t in s.ops && s.ops[t] == GetReady(q) && Suits(cfg, s, q, mine)
       && forall found | Nearest(cfg, s.index, q, found) :: Misses(cfg, s, t, q, found)
  }

  ghost predicate Misses(cfg: Config, s: State, t: nat, q: Query, found: Option<Id>) {
    && Enabled(cfg, s, Search(t, found))
    && forall id :: !IsServed(cfg, Step(cfg, s, Search(t, found)), t, q, id)
  }

  // ---------------------------------------------------------------- one put after another

  lemma PutRuns(cfg: Config, geo: Geometry, w: Whole, n: nat, b: nat, put: Put) returns (e: Whole)
    requires Ready(w.state, n, 0, b) && n < cfg.limits.maxEntries && cfg.limits.ttl >= 0 && put.key != ""
    requires var id := EntryId(cfg.modelHash(put.model), w.state.cache.seqNo);
             && id !in w.state.cache.entries
             && InsertInto(geo, w.parts, cfg.maxPartitions, put.key, id, cfg.embed(put.prompt)).1
    ensures Reaches(cfg, geo, w, e, 1) && Ready(e.state, n + 1, 0, b + 1)
    ensures var id := EntryId(cfg.modelHash(put.model), w.state.cache.seqNo);
            && e.state.cache.entries == w.state.cache.entries[id := Entry(put, w.state.now, w.state.now)]
            && e.state.index == Insert(w.state.index, cfg.maxPartitions, put.key, id, cfg.embed(put.prompt), true)
            && e.parts == InsertInto(geo, w.parts, cfg.maxPartitions, put.key, id, cfg.embed(put.prompt)).0
            && e.state.cache.seqNo == w.state.cache.seqNo + 1 && e.state.now == w.state.now
  {
    var taken := TakePut(cfg, geo, w, n, 0, b, put, 1);
    InsertShape(cfg, taken.state, b, true);
    var stored := NextWhole(cfg, geo, taken, InsertVector(b, true));
    UpdatedTwice(w.state.ops, b, taken.state.ops[b], stored.state.ops[b]);
    OneMore(w.state.ops, b, taken.state.ops[b]);
    StillReady(w.state, n, 0, b, stored.state, stored.state.ops[b]);
    ReachesByStep(cfg, geo, taken, InsertVector(b, true), stored, 1);
    ReachesThen(cfg, geo, w, taken, stored, 1);
    e := NextWhole(cfg, geo, stored, Locked(b));
    CommitShape(cfg, stored.state, b);
    FinishShape(cfg, stored.state, n, 1, b + 1, b, e.state);
    ReachesByStep(cfg, geo, stored, Locked(b), e, 1);
    ReachesThen(cfg, geo, w, stored, e, 1);
  }

  // ---------------------------------------------------------------- two keys in the overflow partition

  /** Without partitions of their own all keys share the overflow partition. */
  lemma AllOverflow(keys: set<Key>, key: Key)
    requires keys <= {OVERFLOW} && key != ""
    ensures InsertTarget(keys, 0, key) == OVERFLOW && ResolveKey(keys, 0, key) == OVERFLOW
  {
  }

  lemma InsertOverflows(index: Partitions, held: map<Id, Vec>, key: Key, id: Id, vec: Vec)
    requires index == map[OVERFLOW := held] || (index == map[] && held == map[])
    requires key != "" && id !in held
    ensures Insert(index, 0, key, id, vec, true) == map[OVERFLOW := held[id := vec]]
  {
    AllOverflow(index.Keys, key);
  }

  lemma InsertIntoOverflows(geo: Geometry, p: Parts, part: VectorIndex.Index, key: Key, id: Id, vec: Vec)
    requires p == map[OVERFLOW := part] || (p == map[] && part == VectorIndex.Empty(geo.dim, geo.capacity))
    requires key != "" && VectorIndex.Insert(part, id, vec).1
    ensures InsertInto(geo, p, 0, key, id, vec) == (map[OVERFLOW := VectorIndex.Insert(part, id, vec).0], true)
  {
    AllOverflow(p.Keys, key);
    var after := VectorIndex.Insert(part, id, vec).0;
    assert PartAt(geo, p, OVERFLOW) == part && p[OVERFLOW := after] == map[OVERFLOW := after];
  }

  lemma TwoFit(geo: Geometry, id: Id, vec: Vec, other: Id, vec': Vec)
    requires geo.capacity >= 2 && |vec| == |vec'| == geo.dim && id != other
    ensures var first := VectorIndex.Insert(VectorIndex.Empty(geo.dim, geo.capacity), id, vec);
            first.1 && VectorIndex.Insert(first.0, other, vec').1
  {
    var empty := VectorIndex.Empty(geo.dim, geo.capacity);
    SlotTaken(empty, id, vec);
    VectorIndex.InsertKeeps(empty, id, vec);
    SlotTaken(VectorIndex.Insert(empty, id, vec).0, other, vec');
  }

  /** Everything is in the overflow partition. */
  ghost predicate Merged(w: Whole, entries: map<Id, Entry>, held: map<Id, Vec>, part: VectorIndex.Index) {
    && w.state.cache.entries == entries && w.state.now == 0 && w.state.cache.seqNo == |entries|
    && (if entries == map[] then w.state.index == map[] && held == map[] && w.parts == map[]
        else w.state.index == map[OVERFLOW := held] && w.parts == map[OVERFLOW := part])
    && Ready(w.state, |entries|, 0, |entries|)
  }

  lemma PutMerges(cfg: Config, geo: Geometry, w: Whole, entries: map<Id, Entry>, held: map<Id, Vec>,
                  part: VectorIndex.Index, put: Put, id: Id)
    returns (e: Whole)
    requires cfg.maxPartitions == 0 && |entries| < cfg.limits.maxEntries && cfg.limits.ttl >= 0 && put.key != ""
    requires Merged(w, entries, held, part) && (entries == map[] ==> part == VectorIndex.Empty(geo.dim, geo.capacity))
    requires id == EntryId(cfg.modelHash(put.model), |entries|) && id !in entries && id !in held
    requires VectorIndex.Insert(part, id, cfg.embed(put.prompt)).1
    ensures Reaches(cfg, geo, w, e, 1)
    ensures Merged(e, entries[id := Entry(put, 0, 0)], held[id := cfg.embed(put.prompt)],
                   VectorIndex.Insert(part, id, cfg.embed(put.prompt)).0)
  {
    InsertIntoOverflows(geo, w.parts, part, put.key, id, cfg.embed(put.prompt));
    InsertOverflows(w.state.index, held, put.key, id, cfg.embed(put.prompt));
    OneMore(entries, id, Entry(put, 0, 0));
    e := PutRuns(cfg, geo, w, |entries|, |entries|, put);
  }

  /** Two puts under any keys, one after the other. */
  lemma BothStored(cfg: Config, geo: Geometry, mine: Put, other: Put, a: Id, b: Id)
    returns (w: Whole, part: VectorIndex.Index)
    requires cfg.maxPartitions == 0 && cfg.limits.maxEntries >= 2 && cfg.limits.ttl >= 0 && geo.capacity >= 2
    requires mine.key != "" && other.key != ""
    requires |cfg.embed(mine.prompt)| == |cfg.embed(other.prompt)| == geo.dim
    requires a == EntryId(cfg.modelHash(mine.model), 0) && b == EntryId(cfg.modelHash(other.model), 1) && a != b
    ensures Reaches(cfg, geo, START, w, 1)
    ensures Merged(w, map[a := Entry(mine, 0, 0)][b := Entry(other, 0, 0)],
                   map[a := cfg.embed(mine.prompt)][b := cfg.embed(other.prompt)], part)
  {
    TwoFit(geo, a, cfg.embed(mine.prompt), b, cfg.embed(other.prompt));
    var empty := VectorIndex.Empty(geo.dim, geo.capacity);
    var first := PutMerges(cfg, geo, START, map[], map[], empty, mine, a);
    part := VectorIndex.Insert(empty, a, cfg.embed(mine.prompt)).0;
    w := PutMerges(cfg, geo, first, map[a := Entry(mine, 0, 0)], map[a := cfg.embed(mine.prompt)], part, other, b);
    part := VectorIndex.Insert(part, b, cfg.embed(other.prompt)).0;
    ReachesThen(cfg, geo, START, first, w, 1);
  }

  // ---------------------------------------------------------------- the miss

  lemma NearestIsOther(cfg: Config, index: Partitions, q: Query, a: Id, u: Vec, b: Id, v: Vec, found: Option<Id>)
    requires cfg.maxPartitions == 0 && q.key != "" && index == map[OVERFLOW := map[a := u][b := v]] && a != b
    requires cfg.score(cfg.embed(q.prompt), u) < cfg.score(cfg.embed(q.prompt), v)
    requires cfg.threshold > 0.0 ==> cfg.score(cfg.embed(q.prompt), u) >= cfg.threshold
    requires Nearest(cfg, index, q, found)
    ensures found == Some(b)
  {
    AllOverflow(index.Keys, q.key);
    var visible := Lookup(index, 0, q.key);
    assert visible == map[a := u][b := v];
    assert a in visible && b in visible && MayFind(cfg, index, q, b);
  }

  lemma RequestWaits(cfg: Config, geo: Geometry, w: Whole, t: nat, q: Query) returns (e: Whole)
    requires Reaches(cfg, geo, START, w, 1) && w.state.ops == map[] && q.key != ""
    ensures Reaches(cfg, geo, START, e, 1)
    ensures e.state == w.state.(ops := map[t := GetReady(q)])
  {
    e := NextWhole(cfg, geo, w, Begin(t, GetReady(q)));
    OneMore(w.state.ops, t, GetReady(q));
    ReachesByStep(cfg, geo, w, Begin(t, GetReady(q)), e, 1);
    ReachesThen(cfg, geo, START, w, e, 1);
  }

  lemma StrangerIsNotServed(cfg: Config, s: State, t: nat, q: Query, b: Id)
    requires Faithful(cfg, s) && t in s.ops && s.ops[t] == GetReady(q) && Nearest(cfg, s.index, q, Some(b))
    requires !Suits(cfg, s, q, b)
    ensures Misses(cfg, s, t, q, Some(b))
  {
    SearchGives(cfg, s, t, q, Some(b));
    forall id ensures !IsServed(cfg, Step(cfg, s, Search(t, Some(b))), t, q, id) {
      ServedFrom(cfg, s, t, q, Some(b), [], id);
    }
  }

  lemma ReachedIsFaithful(cfg: Config, geo: Geometry, past: seq<Action>, e: Whole)
    requires Via(cfg, geo, START, past, e, 1)
    ensures Faithful(cfg, e.state)
  {
    WholeRunIsRun(cfg, geo, START, past);
    InitialInvariant(cfg);
    RunKeepsEmbedded(cfg, INITIAL, past);
  }

  lemma HiddenAfter(cfg: Config, geo: Geometry, past: seq<Action>, e: Whole, t: nat, q: Query, a: Id, b: Id)
    requires Via(cfg, geo, START, past, e, 1) && t in e.state.ops && e.state.ops[t] == GetReady(q)
    requires Suits(cfg, e.state, q, a) && !Suits(cfg, e.state, q, b)
    requires forall found | Nearest(cfg, e.state.index, q, found) :: found == Some(b)
    ensures Hidden(cfg, geo, past, t, q, a)
  {
    ReachedIsFaithful(cfg, geo, past, e);
    forall found | Nearest(cfg, e.state.index, q, found) ensures Misses(cfg, e.state, t, q, found) {
      StrangerIsNotServed(cfg, e.state, t, q, b);
    }
  }

  /** With one shared partition, for any two keys and any request for the first one: if the
      vector stored under the second key is nearer, some run has the entry of the first key
      suit the request and the request not answered. */
  lemma NearerStrangerHides(cfg: Config, geo: Geometry, mine: Put, other: Put, q: Query)
    requires cfg.maxPartitions == 0 && cfg.limits.maxEntries >= 2 && cfg.limits.ttl >= 0 && geo.capacity >= 2
    requires mine.key != "" && other.key != "" && mine.key == q.key != other.key && Compatible(q.model, mine.model)
    requires |cfg.embed(mine.prompt)| == |cfg.embed(other.prompt)| == geo.dim
    requires var v := cfg.embed(q.prompt);
             && cfg.score(v, cfg.embed(mine.prompt)) < cfg.score(v, cfg.embed(other.prompt))
             && (cfg.threshold > 0.0 ==> cfg.score(v, cfg.embed(mine.prompt)) >= cfg.threshold)
    ensures exists past, id :: Hidden(cfg, geo, past, 2, q, id)
  {
    var a, b := EntryId(cfg.modelHash(mine.model), 0), EntryId(cfg.modelHash(other.model), 1);
    NextIdIsFresh(cfg.modelHash(mine.model), 0);
    NextIdIsFresh(cfg.modelHash(other.model), 1);
    var w, part := BothStored(cfg, geo, mine, other, a, b);
    var e := RequestWaits(cfg, geo, w, 2, q);
    var past :| Via(cfg, geo, START, past, e, 1);
    forall found | Nearest(cfg, e.state.index, q, found) ensures found == Some(b) {
      NearestIsOther(cfg, e.state.index, q, a, cfg.embed(mine.prompt), b, cfg.embed(other.prompt), found);
    }
    HiddenAfter(cfg, geo, past, e, 2, q, a, b);
  }

  // ---------------------------------------------------------------- an input

  const CFG := Config(Limits(10, 2), 0, 0.4, (s: string) => [|s| as real],
                      (u: Vec, v: Vec) => if u == v then 1.0 else 0.5, (m: string) => 0)

  /** A question asked again in other words, after another key stored those very words. */
  lemma EntryIsHidden()
    ensures exists past, id :: Hidden(CFG, Geometry(1, 2), past, 2, Query("q", "", "a"), id)
  {
    var mine, other := Put("question", "mine", "", "a"), Put("q", "other", "", "b");
    NearerStrangerHides(CFG, Geometry(1, 2), mine, other, Query("q", "", "a"));
  }
}
