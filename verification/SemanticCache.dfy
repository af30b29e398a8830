/** The locked sections of `SemanticCache`: what `put`, `get`, `evictExpired` and `clear`
    do to the entries and the LRU bookkeeping while they hold the cache mutex. Each
    section is a function of the cache value, and a method of the class performs it. */
module SemanticCache {
  import opened Maps
  import opened PartitionedIndex
  import opened Sequences
  import opened Text

  const EVICT_INTERVAL: nat := 100

  datatype Put = Put(prompt: string, response: string, model: string, key: Key)
  datatype Query = Query(prompt: string, model: string, key: Key)

  datatype Entry = Entry(put: Put, createdAt: int, lastAccessed: int)

  /** `lru` runs from the most to the least recently used id; `lruMap` is the domain of
      the id-to-node map. */
  datatype Cache = Cache(entries: map<Id, Entry>, lru: seq<Id>, lruMap: set<Id>, seqNo: nat, puts: nat)

  datatype Limits = Limits(ttl: int, maxEntries: nat)

  /** What one locked section leaves behind: the cache and the vectors still to remove. */
  datatype Section = Section(cache: Cache, removals: map<Id, Key>)

  datatype Outcome = Hit(response: string, prompt: string) | Expired | Miss

  // ---------------------------------------------------------------- entry ids

  function EntryId(modelHash: nat, seqNo: nat): Id {
    ("ns_" + Decimal(modelHash)) + ['_'] + Decimal(seqNo)
  }

  /** Ids handed out before the counter reached `seqNo`. */
  ghost predicate Issued(id: Id, seqNo: nat) {
    exists h: nat, n: nat :: n < seqNo && id == EntryId(h, n)
  }

  /** Whatever the model hashes to, the next id was never handed out before. */
  lemma NextIdIsFresh(modelHash: nat, seqNo: nat)
    ensures !Issued(EntryId(modelHash, seqNo), seqNo)
    ensures Issued(EntryId(modelHash, seqNo), seqNo + 1)
  {
    var id := EntryId(modelHash, seqNo);
    forall h: nat, n: nat | id == EntryId(h, n) ensures n == seqNo {
      JoinInjective('_', "ns_" + Decimal(modelHash), Decimal(seqNo), "ns_" + Decimal(h), Decimal(n));
      DecimalInjective(seqNo, n);
    }
  }

  // ---------------------------------------------------------------- LRU list

  function Discard(s: seq<Id>, ids: set<Id>): (r: seq<Id>)
    ensures forall x :: x in r <==> x in s && x !in ids
  {
    if s == [] then []
    else if s[0] in ids then Discard(s[1..], ids)
    else [s[0]] + Discard(s[1..], ids)
  }

  ghost predicate NewestFirst(s: seq<Id>, entries: map<Id, Entry>) {
    s == [] ||
    (&& s[0] in entries
     && (forall x <- s[1..] :: x in entries && entries[s[0]].lastAccessed >= entries[x].lastAccessed)
     && NewestFirst(s[1..], entries))
  }

  lemma {:induction false} NewestFirstFrame(s: seq<Id>, entries: map<Id, Entry>, entries': map<Id, Entry>)
    requires NewestFirst(s, entries)
    requires forall x <- s | x in entries :: x in entries' && entries'[x].lastAccessed == entries[x].lastAccessed
    ensures NewestFirst(s, entries')
  {
    if s != [] {
      NewestFirstFrame(s[1..], entries, entries');
    }
  }

  lemma {:induction false} DiscardKeepsDistinct(s: seq<Id>, ids: set<Id>)
    requires Distinct(s)
    ensures Distinct(Discard(s, ids))
  {
    if s != [] {
      DiscardKeepsDistinct(s[1..], ids);
      assert s[0] !in ids ==> ([s[0]] + Discard(s[1..], ids))[1..] == Discard(s[1..], ids);
    }
  }

  lemma {:induction false} DiscardKeepsOrder(s: seq<Id>, ids: set<Id>, entries: map<Id, Entry>)
    requires NewestFirst(s, entries)
    ensures NewestFirst(Discard(s, ids), entries)
  {
    if s != [] {
      DiscardKeepsOrder(s[1..], ids, entries);
      assert s[0] !in ids ==> ([s[0]] + Discard(s[1..], ids))[1..] == Discard(s[1..], ids);
    }
  }

  lemma {:induction false} DiscardTwice(s: seq<Id>, ids: set<Id>, more: set<Id>)
    ensures Discard(Discard(s, ids), more) == Discard(s, ids + more)
  {
    if s != [] {
      DiscardTwice(s[1..], ids, more);
      var rest := Discard(s[1..], ids);
      if s[0] !in ids {
        assert ([s[0]] + rest)[1..] == rest;
      }
    }
  }

  lemma {:induction false} DiscardNone(s: seq<Id>, ids: set<Id>)
    requires forall x <- s :: x !in ids
    ensures Discard(s, ids) == s
  {
    if s != [] {
      DiscardNone(s[1..], ids);
    }
  }

  lemma {:induction false} DiscardLast(s: seq<Id>, id: Id)
    requires Distinct(s + [id])
    ensures Discard(s + [id], {id}) == s
  {
    if s == [] {
      assert Discard([id][1..], {id}) == [];
    } else {
      assert (s + [id])[1..] == s[1..] + [id];
      DiscardLast(s[1..], id);
    }
  }

  lemma {:induction false} LastIsOldestInList(s: seq<Id>, entries: map<Id, Entry>, id: Id)
    requires NewestFirst(s, entries) && id in s
    ensures s[|s| - 1] in entries && id in entries
    ensures entries[s[|s| - 1]].lastAccessed <= entries[id].lastAccessed
  {
    if |s| > 1 {
      assert s[|s| - 1] in s[1..];
      LastIsOldestInList(s[1..], entries, if id == s[0] then s[1] else id);
    }
  }

  // ---------------------------------------------------------------- invariant

  /** `entries_`, `lru_map_` and `lru_list_` hold the same ids, each once. */
  ghost predicate SameIds(entries: map<Id, Entry>, lru: seq<Id>, lruMap: set<Id>) {
    Distinct(lru) && (forall x :: x in lru <==> x in entries) && lruMap == entries.Keys
  }

  /** ... and the list is ordered by last access, none of which lies in the future. */
  ghost predicate WellFormed(c: Cache, now: int) {
    SameIds(c.entries, c.lru, c.lruMap) && NewestFirst(c.lru, c.entries) && Timely(c.entries, now)
  }

  ghost predicate Timely(entries: map<Id, Entry>, now: int) {
    forall id <- entries :: entries[id].createdAt <= entries[id].lastAccessed <= now
  }

  // ---------------------------------------------------------------- locked sections

  predicate Stale(e: Entry, l: Limits, now: int) {
    now - e.createdAt > l.ttl
  }

  function Forget(c: Cache, ids: set<Id>): Cache {
    c.(entries := c.entries - ids, lru := Discard(c.lru, ids), lruMap := c.lruMap - ids)
  }

  function StaleIds(c: Cache, l: Limits, now: int): set<Id> {
    set id <- c.entries | Stale(c.entries[id], l, now)
  }

  function KeysOf(c: Cache, ids: set<Id>): map<Id, Key> {
    map id <- ids | id in c.entries :: c.entries[id].put.key
  }

  function EvictExpired(c: Cache, l: Limits, now: int): Section {
    var ids := StaleIds(c, l, now);
    Section(Forget(c, ids), KeysOf(c, ids))
  }

  function EvictLru(c: Cache): Section {
    if c.lru == [] then Section(c, map[])
    else
      var oldest := c.lru[|c.lru| - 1];
      var key := if oldest in c.entries then c.entries[oldest].put.key else "";
      Section(c.(entries := c.entries - {oldest}, lru := c.lru[..|c.lru| - 1], lruMap := c.lruMap - {oldest}),
              map[oldest := key])
  }

  /** Every so many puts phase 1 starts by sweeping out the expired entries. */
  function Sweep(c: Cache, l: Limits, now: int): Section {
    var counted := c.(puts := c.puts + 1);
    if counted.puts % EVICT_INTERVAL == 0 then EvictExpired(counted, l, now) else Section(counted, map[])
  }

  /** Phase 1 of `put` before the id is taken: count, and make room. */
  function MakeRoom(c: Cache, l: Limits, now: int): Section {
    var swept := Sweep(c, l, now);
    if |swept.cache.entries| < l.maxEntries then swept
    else
      var evicted := EvictLru(swept.cache);
      Section(evicted.cache, swept.removals + evicted.removals)
  }

  /** Phase 1 of `put`; the id taken is `EntryId(modelHash, c.seqNo)`. */
  function Allocate(c: Cache, l: Limits, now: int): Section {
    var room := MakeRoom(c, l, now);
    room.(cache := room.cache.(seqNo := room.cache.seqNo + 1))
  }

  /** Phase 3 of `put`. */
  function Commit(c: Cache, now: int, id: Id, put: Put): Cache {
    c.(entries := c.entries[id := Entry(put, now, now)], lru := [id] + c.lru, lruMap := c.lruMap + {id})
  }

  predicate ModelsDiffer(a: string, b: string) {
    a != "" && b != "" && a != b
  }

  function Judge(c: Cache, l: Limits, now: int, q: Query, id: Id): Outcome {
    if id !in c.entries then Miss
    else if Stale(c.entries[id], l, now) then Expired
    else if ModelsDiffer(q.model, c.entries[id].put.model) then Miss
    else if c.entries[id].put.key != q.key then Miss
    else Hit(c.entries[id].put.response, c.entries[id].put.prompt)
  }

  function Touch(c: Cache, now: int, id: Id): Cache
    requires id in c.entries
  {
    c.(entries := c.entries[id := c.entries[id].(lastAccessed := now)], lru := [id] + Discard(c.lru, {id}))
  }

  /** The locked part of `get` for the id the search returned. */
  function Answer(c: Cache, l: Limits, now: int, q: Query, id: Id): Section {
    match Judge(c, l, now, q, id)
    case Miss => Section(c, map[])
    case Expired => Section(Forget(c, {id}), map[id := q.key])
    case Hit(_, _) => Section(Touch(c, now, id), map[])
  }

  function Clear(c: Cache): Section {
    Section(c.(entries := map[], lru := [], lruMap := {}), KeysOf(c, c.entries.Keys))
  }

  // ---------------------------------------------------------------- every section keeps the bookkeeping

  lemma ForgetKeeps(c: Cache, ids: set<Id>, now: int)
    requires WellFormed(c, now)
    ensures WellFormed(Forget(c, ids), now)
  {
    var f := Forget(c, ids);
    DiscardKeepsDistinct(c.lru, ids);
    DiscardKeepsOrder(c.lru, ids, c.entries);
    NewestFirstFrame(f.lru, c.entries, f.entries);
  }

  lemma LastIsOldest(c: Cache, now: int)
    requires WellFormed(c, now) && c.entries != map[]
    ensures c.lru != [] && c.lru[|c.lru| - 1] in c.entries
    ensures forall id <- c.entries ::
              c.entries[c.lru[|c.lru| - 1]].lastAccessed <= c.entries[id].lastAccessed
  {
    var some :| some in c.entries;
    assert some in c.lru;
    forall id <- c.entries ensures c.entries[c.lru[|c.lru| - 1]].lastAccessed <= c.entries[id].lastAccessed {
      LastIsOldestInList(c.lru, c.entries, id);
    }
  }

  lemma ForgetOneSize(c: Cache, id: Id)
    requires id in c.entries
    ensures |Forget(c, {id}).entries| == |c.entries| - 1
  {
    OneLess(c.entries, id);
  }

  /** `evictLRU` drops an entry with the least `last_accessed`, and only that one. */
  lemma EvictLruDropsOldest(c: Cache, now: int)
    requires WellFormed(c, now) && c.entries != map[]
    ensures c.lru != []
    ensures var oldest := c.lru[|c.lru| - 1];
            && oldest in c.entries
            && (forall id <- c.entries :: c.entries[oldest].lastAccessed <= c.entries[id].lastAccessed)
            && EvictLru(c) == Section(Forget(c, {oldest}), map[oldest := c.entries[oldest].put.key])
  {
    LastIsOldest(c, now);
    var last := |c.lru| - 1;
    assert c.lru == c.lru[..last] + [c.lru[last]];
    DiscardLast(c.lru[..last], c.lru[last]);
  }

  /** The section dropped some entries, and knows the partition key of each of them. */
  ghost predicate Dropped(c: Cache, s: Section) {
    && s.cache.entries.Keys == c.entries.Keys - s.removals.Keys
    && s.removals.Keys <= c.entries.Keys
    && (forall id <- s.removals :: s.removals[id] == c.entries[id].put.key)
    && (forall id <- s.cache.entries :: s.cache.entries[id] == c.entries[id])
    && s.cache.seqNo == c.seqNo
  }

  lemma EvictExpiredDrops(c: Cache, l: Limits, now: int)
    ensures Dropped(c, EvictExpired(c, l, now))
  {
  }

  lemma EvictExpiredKeeps(c: Cache, l: Limits, now: int)
    requires WellFormed(c, now)
    ensures WellFormed(EvictExpired(c, l, now).cache, now)
    ensures Dropped(c, EvictExpired(c, l, now))
    ensures |EvictExpired(c, l, now).cache.entries| <= |c.entries|
  {
    var ids := StaleIds(c, l, now);
    ForgetKeeps(c, ids, now);
    SmallerMap(c.entries, ids);
  }

  lemma EvictLruKeeps(c: Cache, now: int)
    requires WellFormed(c, now) && c.entries != map[]
    ensures WellFormed(EvictLru(c).cache, now)
    ensures Dropped(c, EvictLru(c))
    ensures |EvictLru(c).cache.entries| == |c.entries| - 1
  {
    EvictLruDropsOldest(c, now);
    var oldest := c.lru[|c.lru| - 1];
    ForgetKeeps(c, {oldest}, now);
    ForgetOneSize(c, oldest);
  }

  lemma DroppedTwice(c: Cache, s: Section, t: Section)
    requires Dropped(c, s) && Dropped(s.cache, t)
    ensures Dropped(c, Section(t.cache, s.removals + t.removals))
  {
  }

  lemma SweepKeeps(c: Cache, l: Limits, now: int)
    requires WellFormed(c, now)
    ensures WellFormed(Sweep(c, l, now).cache, now)
    ensures Dropped(c, Sweep(c, l, now))
    ensures |Sweep(c, l, now).cache.entries| <= |c.entries|
  {
    var counted := c.(puts := c.puts + 1);
    assert WellFormed(counted, now);
    if counted.puts % EVICT_INTERVAL == 0 {
      EvictExpiredKeeps(counted, l, now);
      assert Sweep(c, l, now) == EvictExpired(counted, l, now);
    } else {
      assert Sweep(c, l, now) == Section(counted, map[]);
    }
  }

  /** Phase 1 leaves room: a full cache loses at least one entry. */
  lemma MakeRoomKeeps(c: Cache, l: Limits, now: int)
    requires WellFormed(c, now)
    ensures WellFormed(MakeRoom(c, l, now).cache, now)
    ensures Dropped(c, MakeRoom(c, l, now))
    ensures |MakeRoom(c, l, now).cache.entries| <= |c.entries|
    ensures |c.entries| >= l.maxEntries >= 1 ==> |MakeRoom(c, l, now).cache.entries| < |c.entries|
  {
    SweepKeeps(c, l, now);
    var swept := Sweep(c, l, now);
    if |swept.cache.entries| >= l.maxEntries {
      if swept.cache.lru != [] {
        assert swept.cache.lru[0] in swept.cache.entries;
        EvictLruKeeps(swept.cache, now);
        DroppedTwice(c, swept, EvictLru(swept.cache));
      }
    }
  }

  lemma CommitKeeps(c: Cache, now: int, id: Id, put: Put)
    requires WellFormed(c, now) && id !in c.entries
    ensures WellFormed(Commit(c, now, id, put), now)
  {
    var d := Commit(c, now, id, put);
    assert d.lru[1..] == c.lru;
    NewestFirstFrame(c.lru, c.entries, d.entries);
  }

  /** A hit puts the id at the front, leaves the others in their order, and stamps only it. */
  lemma TouchKeeps(c: Cache, now: int, id: Id)
    requires WellFormed(c, now) && id in c.entries
    ensures WellFormed(Touch(c, now, id), now)
    ensures var d := Touch(c, now, id);
            && d.lru != [] && d.lru[0] == id && Discard(d.lru, {id}) == Discard(c.lru, {id})
            && d.entries.Keys == c.entries.Keys && d.entries[id].lastAccessed == now
            && d.entries[id].put == c.entries[id].put && d.entries[id].createdAt == c.entries[id].createdAt
            && forall x <- c.entries | x != id :: d.entries[x] == c.entries[x]
  {
    var d := Touch(c, now, id);
    var rest := Discard(c.lru, {id});
    assert d.lru[1..] == rest;
    DiscardNone(rest, {id});
    DiscardKeepsDistinct(c.lru, {id});
    DiscardKeepsOrder(c.lru, {id}, c.entries);
    NewestFirstFrame(rest, c.entries, d.entries);
  }
}
