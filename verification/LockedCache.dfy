/** The cache object: its methods are the sections that hold the mutex, performed step by
    step on the fields, and each is proved to do what its section function says. */
module LockedCache {
  import opened PartitionedIndex
  import opened SemanticCache

  class LockedCache {
    const limits: Limits
    var entries: map<Id, Entry>
    var lruList: seq<Id>
    var lruMap: set<Id>
    var seqCounter: nat
    var putCounter: nat

    ghost function Value(): Cache
      reads this
    {
      Cache(entries, lruList, lruMap, seqCounter, putCounter)
    }

    ghost predicate Valid()
      reads this
    {
      SameIds(entries, lruList, lruMap)
    }

    constructor (limits: Limits)
      ensures Valid() && this.limits == limits && Value() == Cache(map[], [], {}, 0, 0)
    {
      this.limits := limits;
      entries, lruList, lruMap := map[], [], {};
      seqCounter, putCounter := 0, 0;
    }

    /** Erase the list node the map points at, the map slot and the entry. */
    method DropLocked(id: Id)
      requires Valid() && id in entries
      modifies this`entries, this`lruList, this`lruMap
      ensures Valid() && Value() == Forget(old(Value()), {id})
    {
      ghost var before := Value();
      if id in lruMap {
        lruList := Discard(lruList, {id});
        lruMap := lruMap - {id};
      }
      entries := entries - {id};
      ForgetKeepsIds(before, {id});
    }

    method EvictExpiredLocked(now: int) returns (removals: map<Id, Key>)
      requires Valid()
      modifies this`entries, this`lruList, this`lruMap
      ensures Valid() && Section(Value(), removals) == EvictExpired(old(Value()), limits, now)
    {
      removals := map[];
      ghost var before := Value();
      ghost var stale := StaleIds(before, limits, now);
      var todo := entries.Keys;
      assert stale - todo == {};
      ForgetNone(before);
      while todo != {}
        invariant todo <= before.entries.Keys
        invariant Valid() && Value() == Forget(before, stale - todo)
        invariant removals == KeysOf(before, stale - todo)
        decreases |todo|
      {
        var id :| id in todo;
        ghost var gone := stale - todo;
        OneDone(stale, todo, id);
        todo := todo - {id};
        assert id in before.entries && id !in gone && entries[id] == before.entries[id];
        if Stale(entries[id], limits, now) {
          removals := removals[id := entries[id].put.key];
          DropLocked(id);
          ForgetTwice(before, gone, id);
          KeysOfMore(before, gone, id);
        }
      }
      assert stale - todo == stale;
    }

    method EvictLruLocked() returns (removals: map<Id, Key>)
      requires Valid()
      modifies this`entries, this`lruList, this`lruMap
      ensures Valid() && Section(Value(), removals) == EvictLru(old(Value()))
    {
      removals := map[];
      if |lruList| == 0 {
        return;
      }
      var oldest := lruList[|lruList| - 1];
      lruList := lruList[..|lruList| - 1];
      var key := if oldest in entries then entries[oldest].put.key else "";
      if oldest in entries {
        entries := entries - {oldest};
      }
      lruMap := lruMap - {oldest};
      removals := map[oldest := key];
      EvictLruKeepsIds(old(Value()));
    }

    method SweepLocked(now: int) returns (removals: map<Id, Key>)
      requires Valid()
      modifies this`entries, this`lruList, this`lruMap, this`putCounter
      ensures Valid() && Section(Value(), removals) == Sweep(old(Value()), limits, now)
    {
      removals := map[];
      putCounter := putCounter + 1;
      assert Value() == old(Value()).(puts := putCounter);
      if putCounter % EVICT_INTERVAL == 0 {
        removals := EvictExpiredLocked(now);
      }
    }

    /** Phase 1 of `put`. */
    method AllocateLocked(now: int, modelHash: nat) returns (id: Id, removals: map<Id, Key>)
      requires Valid()
      modifies this
      ensures Valid() && Section(Value(), removals) == Allocate(old(Value()), limits, now)
      ensures id == EntryId(modelHash, old(seqCounter))
    {
      removals := SweepLocked(now);
      if |entries| >= limits.maxEntries {
        var more := EvictLruLocked();
        removals := removals + more;
      }
      id := EntryId(modelHash, seqCounter);
      seqCounter := seqCounter + 1;
    }

    /** Phase 3 of `put`. */
    method CommitLocked(now: int, id: Id, put: Put)
      requires Valid() && id !in entries
      modifies this`entries, this`lruList, this`lruMap
      ensures Valid() && Value() == Commit(old(Value()), now, id, put)
    {
      entries := entries[id := Entry(put, now, now)];
      lruList := [id] + lruList;
      lruMap := lruMap + {id};
      assert forall x :: x in lruList <==> x == id || x in old(lruList);
    }

    /** The locked part of `get` for the id the search returned. */
    method AnswerLocked(now: int, q: Query, id: Id) returns (outcome: Outcome, removals: map<Id, Key>)
      requires Valid()
      modifies this`entries, this`lruList, this`lruMap
      ensures Valid() && Section(Value(), removals) == Answer(old(Value()), limits, now, q, id)
      ensures outcome == Judge(old(Value()), limits, now, q, id)
    {
      removals := map[];
      outcome := Miss;
      if id in entries {
        if now - entries[id].createdAt > limits.ttl {
          outcome, removals := Expired, map[id := q.key];
          DropLocked(id);
        } else if q.model != "" && entries[id].put.model != "" && entries[id].put.model != q.model {
        } else if entries[id].put.key != q.key {
        } else {
          TouchLocked(now, id);
          outcome := Hit(entries[id].put.response, entries[id].put.prompt);
        }
      }
    }

    method TouchLocked(now: int, id: Id)
      requires Valid() && id in entries
      modifies this`entries, this`lruList
      ensures Valid() && Value() == Touch(old(Value()), now, id)
      ensures lruList != [] && lruList[0] == id && id in entries && entries[id].lastAccessed == now
    {
      DiscardKeepsDistinct(lruList, {id});
      if id in lruMap {
        lruList := [id] + Discard(lruList, {id});
      }
      entries := entries[id := entries[id].(lastAccessed := now)];
      assert forall x :: x in lruList <==> x in old(lruList);
    }

    method ClearLocked() returns (removals: map<Id, Key>)
      requires Valid()
      modifies this`entries, this`lruList, this`lruMap
      ensures Valid() && Section(Value(), removals) == Clear(old(Value()))
    {
      removals := map id <- entries :: entries[id].put.key;
      entries, lruList, lruMap := map[], [], {};
    }
  }

  lemma EvictLruKeepsIds(c: Cache)
    requires SameIds(c.entries, c.lru, c.lruMap) && c.lru != []
    ensures var d := EvictLru(c).cache; SameIds(d.entries, d.lru, d.lruMap)
  {
    var last := |c.lru| - 1;
    assert c.lru == c.lru[..last] + [c.lru[last]];
    DiscardLast(c.lru[..last], c.lru[last]);
    DiscardKeepsDistinct(c.lru, {c.lru[last]});
  }

  lemma OneDone<T>(all: set<T>, todo: set<T>, x: T)
    requires x in todo
    ensures all - (todo - {x}) == if x in all then (all - todo) + {x} else all - todo
  {
  }

  lemma ForgetNone(c: Cache)
    ensures Forget(c, {}) == c
  {
    DiscardNone(c.lru, {});
  }

  lemma ForgetTwice(c: Cache, ids: set<Id>, id: Id)
    ensures Forget(Forget(c, ids), {id}) == Forget(c, ids + {id})
  {
    DiscardTwice(c.lru, ids, {id});
  }

  lemma KeysOfMore(c: Cache, ids: set<Id>, id: Id)
    requires id in c.entries
    ensures KeysOf(c, ids + {id}) == KeysOf(c, ids)[id := c.entries[id].put.key]
  {
  }

  lemma ForgetKeepsIds(c: Cache, ids: set<Id>)
    requires SameIds(c.entries, c.lru, c.lruMap)
    ensures var f := Forget(c, ids);
            SameIds(f.entries, f.lru, f.lruMap)
  {
    DiscardKeepsDistinct(c.lru, ids);
  }
}
