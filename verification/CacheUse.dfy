/** What "least recently used" means: the order of the last uses that the log records, where
    an entry is used when it is stored and when it is served. */
module CacheUse {
  import opened CacheRun
  import opened CacheTheorems
  import opened Maps
  import opened PartitionedIndex
  import opened SemanticCache

  predicate Uses(e: Event, id: Id) {
    (e.Stored? || e.Served?) && e.id == id
  }

  /** Event number `i` is the last that stored or served `id`. */
  ghost predicate LastUse(log: seq<Event>, id: Id, i: int) {
    0 <= i < |log| && Uses(log[i], id) && forall j | i < j < |log| :: !Uses(log[j], id)
  }

  /** Its number, or -1. */
  function LastUseOf(log: seq<Event>, id: Id): (i: int)
    ensures -1 <= i < |log|
    ensures i >= 0 ==> LastUse(log, id, i)
    decreases |log|
  {
    if log == [] then -1
    else if Uses(log[|log| - 1], id) then |log| - 1
    else
      var front := log[..|log| - 1];
      assert forall j | 0 <= j < |front| :: front[j] == log[j];
      LastUseOf(front, id)
  }

  lemma OneLastUse(log: seq<Event>, id: Id, i: int)
    requires LastUse(log, id, i)
    ensures LastUseOf(log, id) == i
  {
    LastUseFound(log, id, i);
  }

  lemma {:induction false} LastUseFound(log: seq<Event>, id: Id, i: int)
    requires 0 <= i < |log| && Uses(log[i], id)
    ensures LastUseOf(log, id) >= i
    decreases |log|
  {
    if !Uses(log[|log| - 1], id) {
      LastUseFound(log[..|log| - 1], id, i);
    }
  }

  lemma NextEvent(log: seq<Event>, e: Event, id: Id)
    ensures LastUseOf(log + [e], id) == if Uses(e, id) then |log| else LastUseOf(log, id)
  {
    assert (log + [e])[..|log|] == log;
  }

  // ---------------------------------------------------------------- the list is in order of use

  /** Each id was used later than all that follow it. */
  ghost predicate Falling(s: seq<Id>, log: seq<Event>) {
    s == [] ||
    ((forall x <- s[1..] :: LastUseOf(log, s[0]) > LastUseOf(log, x)) && Falling(s[1..], log))
  }

  lemma {:induction false} FallingFrame(s: seq<Id>, log: seq<Event>, log': seq<Event>)
    requires Falling(s, log) && forall x <- s :: LastUseOf(log', x) == LastUseOf(log, x)
    ensures Falling(s, log')
  {
    if s != [] {
      FallingFrame(s[1..], log, log');
    }
  }

  lemma {:induction false} FallingDiscard(s: seq<Id>, log: seq<Event>, ids: set<Id>)
    requires Falling(s, log)
    ensures Falling(Discard(s, ids), log)
  {
    if s != [] {
      FallingDiscard(s[1..], log, ids);
      assert s[0] !in ids ==> ([s[0]] + Discard(s[1..], ids))[1..] == Discard(s[1..], ids);
    }
  }

  lemma {:induction false} FallingPrefix(s: seq<Id>, log: seq<Event>, n: nat)
    requires Falling(s, log) && n <= |s|
    ensures Falling(s[..n], log)
  {
    if n > 0 {
      FallingPrefix(s[1..], log, n - 1);
      assert s[..n][1..] == s[1..][..n - 1];
    }
  }

  lemma {:induction false} FallingAt(s: seq<Id>, log: seq<Event>, p: nat, q: nat)
    requires Falling(s, log) && p < q < |s|
    ensures LastUseOf(log, s[p]) > LastUseOf(log, s[q])
    decreases p
  {
    if p == 0 {
      assert s[q] in s[1..];
    } else {
      FallingAt(s[1..], log, p - 1, q - 1);
    }
  }

  /** `id` has just been used. */
  lemma FallingFront(s: seq<Id>, log: seq<Event>, e: Event, id: Id)
    requires Falling(s, log) && id !in s && (e.Stored? || e.Served?) && e.id == id
    ensures Falling([id] + s, log + [e])
  {
    NextEvent(log, e, id);
    forall x <- s ensures LastUseOf(log + [e], x) == LastUseOf(log, x) {
      NextEvent(log, e, x);
    }
    FallingFrame(s, log, log + [e]);
    assert ([id] + s)[1..] == s;
  }

  // ---------------------------------------------------------------- every step keeps it

  ghost predicate Stamped(log: seq<Event>, id: Id, e: Entry) {
    LastUseOf(log, id) >= 0 && log[LastUseOf(log, id)].at == e.lastAccessed
  }

  ghost predicate AllStamped(log: seq<Event>, entries: map<Id, Entry>) {
    forall id <- entries :: Stamped(log, id, entries[id])
  }

  /** Every entry bears the time of its last use, and the list is in the order of these. */
  ghost predicate InOrder(c: Cache, log: seq<Event>) {
    Falling(c.lru, log) && AllStamped(log, c.entries)
  }

  lemma GoneKeepsOrder(c: Cache, c': Cache, log: seq<Event>, e: Event)
    requires InOrder(c, log) && e.Gone? && Falling(c'.lru, log)
    requires forall id <- c'.entries :: id in c.entries && c'.entries[id] == c.entries[id]
    ensures InOrder(c', log + [e])
  {
    forall id ensures LastUseOf(log + [e], id) == LastUseOf(log, id) {
      NextEvent(log, e, id);
    }
    FallingFrame(c'.lru, log, log + [e]);
    forall id <- c'.entries ensures Stamped(log + [e], id, c'.entries[id]) {
      assert Stamped(log, id, c.entries[id]);
    }
  }

  lemma MakeRoomFalls(c: Cache, l: Limits, now: int, log: seq<Event>)
    requires Falling(c.lru, log)
    ensures Falling(MakeRoom(c, l, now).cache.lru, log)
  {
    var swept := Sweep(c, l, now).cache;
    FallingDiscard(c.lru, log, StaleIds(c.(puts := c.puts + 1), l, now));
    if swept.lru != [] {
      FallingPrefix(swept.lru, log, |swept.lru| - 1);
    }
  }

  lemma UseKeepsOrder(c: Cache, c': Cache, log: seq<Event>, e: Event, id: Id, rest: seq<Id>)
    requires InOrder(c, log) && (e.Stored? || e.Served?) && e.id == id
    requires Falling(rest, log) && id !in rest && c'.lru == [id] + rest
    requires id in c'.entries && c'.entries[id].lastAccessed == e.at
    requires forall x <- c'.entries | x != id :: x in c.entries && c'.entries[x] == c.entries[x]
    ensures InOrder(c', log + [e])
  {
    FallingFront(rest, log, e, id);
    forall x <- c'.entries ensures Stamped(log + [e], x, c'.entries[x]) {
      NextEvent(log, e, x);
      assert x != id ==> Stamped(log, x, c.entries[x]);
    }
  }

  lemma AllocateKeepsOrder(cfg: Config, s: State, t: nat)
    requires WellFormed(s.cache, s.now) && InOrder(s.cache, s.log) && t in s.ops && s.ops[t].PutReady?
    ensures InOrder(Step(cfg, s, Locked(t)).cache, Step(cfg, s, Locked(t)).log)
  {
    var s' := Step(cfg, s, Locked(t));
    MakeRoomKeeps(s.cache, cfg.limits, s.now);
    MakeRoomFalls(s.cache, cfg.limits, s.now, s.log);
    GoneKeepsOrder(s.cache, s'.cache, s.log, s'.log[|s.log|]);
  }

  lemma CommitKeepsOrder(cfg: Config, s: State, t: nat)
    requires SameIds(s.cache.entries, s.cache.lru, s.cache.lruMap) && InOrder(s.cache, s.log)
    requires t in s.ops && s.ops[t].PutInserted? && s.ops[t].id !in s.cache.entries
    ensures InOrder(Step(cfg, s, Locked(t)).cache, Step(cfg, s, Locked(t)).log)
  {
    var s' := Step(cfg, s, Locked(t));
    UseKeepsOrder(s.cache, s'.cache, s.log, s'.log[|s.log|], s.ops[t].id, s.cache.lru);
  }

  lemma ServeKeepsOrder(cfg: Config, s: State, t: nat)
    requires InOrder(s.cache, s.log) && t in s.ops && s.ops[t].GetFound?
    requires Judge(s.cache, cfg.limits, s.now, s.ops[t].q, s.ops[t].id).Hit?
    ensures InOrder(Step(cfg, s, Locked(t)).cache, Step(cfg, s, Locked(t)).log)
  {
    var s', id := Step(cfg, s, Locked(t)), s.ops[t].id;
    FallingDiscard(s.cache.lru, s.log, {id});
    UseKeepsOrder(s.cache, s'.cache, s.log, s'.log[|s.log|], id, Discard(s.cache.lru, {id}));
  }

  lemma AnswerKeepsOrder(cfg: Config, s: State, t: nat)
    requires InOrder(s.cache, s.log) && t in s.ops && s.ops[t].GetFound?
    ensures InOrder(Step(cfg, s, Locked(t)).cache, Step(cfg, s, Locked(t)).log)
  {
    var s', id := Step(cfg, s, Locked(t)), s.ops[t].id;
    match Judge(s.cache, cfg.limits, s.now, s.ops[t].q, id)
    case Hit(_, _) => ServeKeepsOrder(cfg, s, t);
    case Expired =>
      FallingDiscard(s.cache.lru, s.log, {id});
      GoneKeepsOrder(s.cache, s'.cache, s.log, s'.log[|s.log|]);
    case Miss => assert s.log + [] == s.log;
  }

  lemma LockedKeepsOrder(cfg: Config, s: State, t: nat)
    requires Invariant(cfg, s) && InOrder(s.cache, s.log) && Enabled(cfg, s, Locked(t))
    ensures InOrder(Step(cfg, s, Locked(t)).cache, Step(cfg, s, Locked(t)).log)
  {
    var s' := Step(cfg, s, Locked(t));
    match s.ops[t]
    case PutReady(_) => AllocateKeepsOrder(cfg, s, t);
    case PutInserted(_, _) =>
      CommitKeepsAgreement(cfg, s, t);
      CommitKeepsOrder(cfg, s, t);
    case GetFound(_, _, _) => AnswerKeepsOrder(cfg, s, t);
    case ClearReady => GoneKeepsOrder(s.cache, s'.cache, s.log, s'.log[|s.log|]);
    case SweepReady =>
      FallingDiscard(s.cache.lru, s.log, StaleIds(s.cache, cfg.limits, s.now));
      GoneKeepsOrder(s.cache, s'.cache, s.log, s'.log[|s.log|]);
  }

  lemma StepKeepsOrder(cfg: Config, s: State, a: Action)
    requires Invariant(cfg, s) && InOrder(s.cache, s.log) && Enabled(cfg, s, a)
    ensures InOrder(Step(cfg, s, a).cache, Step(cfg, s, a).log)
  {
    if a.Locked? {
      LockedKeepsOrder(cfg, s, a.t);
    }
  }

  lemma {:induction false} RunKeepsOrder(cfg: Config, s: State, actions: seq<Action>)
    requires Invariant(cfg, s) && InOrder(s.cache, s.log) && IsRun(cfg, s, actions)
    ensures InOrder(End(cfg, s, actions).cache, End(cfg, s, actions).log)
    decreases |actions|
  {
    if actions != [] {
      StepKeepsOrder(cfg, s, actions[0]);
      StepKeepsAgreement(cfg, s, actions[0]);
      StepKeepsBookkeeping(cfg, s, actions[0]);
      RunKeepsOrder(cfg, Step(cfg, s, actions[0]), actions[1..]);
    }
  }

  // ---------------------------------------------------------------- every run

  /** The last use of `x` came before the last use of `y`. */
  ghost predicate UsedBefore(log: seq<Event>, x: Id, y: Id) {
    exists i, j :: LastUse(log, x, i) && LastUse(log, y, j) && i < j
  }

  ghost predicate LeastRecent(log: seq<Event>, ids: set<Id>, x: Id) {
    x in ids && forall id <- ids | id != x :: UsedBefore(log, x, id)
  }

  lemma UsedBeforeIs(log: seq<Event>, x: Id, y: Id)
    requires 0 <= LastUseOf(log, x) < LastUseOf(log, y)
    ensures UsedBefore(log, x, y)
  {
    assert LastUse(log, x, LastUseOf(log, x)) && LastUse(log, y, LastUseOf(log, y));
  }

  lemma OrderOfUse(c: Cache, log: seq<Event>, p: nat, q: nat)
    requires SameIds(c.entries, c.lru, c.lruMap) && InOrder(c, log) && p < q < |c.lru|
    ensures UsedBefore(log, c.lru[q], c.lru[p])
  {
    FallingAt(c.lru, log, p, q);
    assert c.lru[q] in c.lru && c.lru[p] in c.lru;
    assert Stamped(log, c.lru[q], c.entries[c.lru[q]]);
    UsedBeforeIs(log, c.lru[q], c.lru[p]);
  }

  lemma EmptyTogether(c: Cache)
    requires SameIds(c.entries, c.lru, c.lruMap)
    ensures c.lru == [] <==> c.entries.Keys == {}
  {
    assert forall x :: x in c.lru <==> x in c.entries.Keys;
    assert c.lru != [] ==> c.lru[0] in c.lru;
  }

  lemma UsedAfterLast(c: Cache, log: seq<Event>, id: Id)
    requires SameIds(c.entries, c.lru, c.lruMap) && InOrder(c, log) && c.lru != [] && id in c.lru
    ensures id != c.lru[|c.lru| - 1] ==> UsedBefore(log, c.lru[|c.lru| - 1], id)
  {
    var p :| 0 <= p < |c.lru| && c.lru[p] == id;
    if p < |c.lru| - 1 {
      OrderOfUse(c, log, p, |c.lru| - 1);
    }
  }

  lemma LastIsLeastRecent(c: Cache, log: seq<Event>)
    requires SameIds(c.entries, c.lru, c.lruMap) && InOrder(c, log) && c.lru != []
    ensures LeastRecent(log, c.entries.Keys, c.lru[|c.lru| - 1])
  {
    assert c.lru[|c.lru| - 1] in c.lru;
    forall id <- c.entries.Keys | id != c.lru[|c.lru| - 1] ensures UsedBefore(log, c.lru[|c.lru| - 1], id) {
      UsedAfterLast(c, log, id);
    }
  }

  /** All of `ids` but the least recently used are left. */
  ghost predicate WithoutOldest(log: seq<Event>, ids: set<Id>, left: set<Id>) {
    exists id :: LeastRecent(log, ids, id) && left == ids - {id}
  }

  lemma EvictTakesOldest(c: Cache, log: seq<Event>)
    requires SameIds(c.entries, c.lru, c.lruMap) && InOrder(c, log) && c.lru != []
    ensures WithoutOldest(log, c.entries.Keys, EvictLru(c).cache.entries.Keys)
  {
    var oldest := c.lru[|c.lru| - 1];
    LastIsLeastRecent(c, log);
    assert EvictLru(c).cache.entries.Keys == c.entries.Keys - {oldest};
  }

  lemma ReachedInOrder(cfg: Config, actions: seq<Action>)
    requires IsRun(cfg, INITIAL, actions)
    ensures var s := End(cfg, INITIAL, actions); Invariant(cfg, s) && InOrder(s.cache, s.log)
  {
    InitialInvariant(cfg);
    RunKeepsOrder(cfg, INITIAL, actions);
    RunKeepsInvariant(cfg, INITIAL, actions);
  }

  /** In every run each entry bears the time at which it was last stored or served, the list is
      ordered by these events, and the next eviction takes the entry whose last such event is
      the earliest. */
  lemma LruIsByUse(cfg: Config, actions: seq<Action>)
    requires IsRun(cfg, INITIAL, actions)
    ensures var s := End(cfg, INITIAL, actions);
            && (forall id <- s.cache.entries ::
                  exists i :: LastUse(s.log, id, i) && s.log[i].at == s.cache.entries[id].lastAccessed)
            && (forall p, q | 0 <= p < q < |s.cache.lru| :: UsedBefore(s.log, s.cache.lru[q], s.cache.lru[p]))
            && (s.cache.entries.Keys != {} ==>
                  WithoutOldest(s.log, s.cache.entries.Keys, EvictLru(s.cache).cache.entries.Keys))
  {
    var s := End(cfg, INITIAL, actions);
    ReachedInOrder(cfg, actions);
    forall id <- s.cache.entries
      ensures exists i :: LastUse(s.log, id, i) && s.log[i].at == s.cache.entries[id].lastAccessed
    {
      assert Stamped(s.log, id, s.cache.entries[id]);
    }
    forall p, q | 0 <= p < q < |s.cache.lru| ensures UsedBefore(s.log, s.cache.lru[q], s.cache.lru[p]) {
      OrderOfUse(s.cache, s.log, p, q);
    }
    EmptyTogether(s.cache);
    if s.cache.entries.Keys != {} {
      EvictTakesOldest(s.cache, s.log);
    }
  }

  // ---------------------------------------------------------------- what leaves the cache

  /** The entries that are no older than the time to live. */
  ghost function FreshIds(cfg: Config, s: State): set<Id> {
    set id <- s.cache.entries | s.now - s.cache.entries[id].createdAt <= cfg.limits.ttl
  }

  /** What phase 1 of a put leaves: on every hundredth put only what is fresh, and, when that
      is not below the limit, all of it but the least recently used. */
  ghost predicate LeftByPut(cfg: Config, s: State, left: set<Id>) {
    var swept := if (s.cache.puts + 1) % 100 == 0 then FreshIds(cfg, s) else s.cache.entries.Keys;
    if |swept| < cfg.limits.maxEntries || swept == {} then left == swept
    else WithoutOldest(s.log, swept, left)
  }

  lemma FreshIsNotStale(cfg: Config, s: State, c: Cache)
    requires c.entries == s.cache.entries
    ensures (c.entries - StaleIds(c, cfg.limits, s.now)).Keys == FreshIds(cfg, s)
  {
  }

  lemma SweepLeaves(cfg: Config, s: State)
    ensures var swept := Sweep(s.cache, cfg.limits, s.now).cache;
            && swept.entries.Keys == (if (s.cache.puts + 1) % 100 == 0 then FreshIds(cfg, s) else s.cache.entries.Keys)
            && swept.puts == s.cache.puts + 1
  {
    FreshIsNotStale(cfg, s, s.cache.(puts := s.cache.puts + 1));
  }

  lemma SweepKeepsOrder(c: Cache, l: Limits, now: int, log: seq<Event>)
    requires WellFormed(c, now) && InOrder(c, log)
    ensures InOrder(Sweep(c, l, now).cache, log)
  {
    FallingDiscard(c.lru, log, StaleIds(c.(puts := c.puts + 1), l, now));
    SweepKeeps(c, l, now);
    var swept := Sweep(c, l, now).cache;
    forall id <- swept.entries ensures Stamped(log, id, swept.entries[id]) {
      assert Stamped(log, id, c.entries[id]);
    }
  }

  lemma PutLeaves(cfg: Config, s: State)
    requires WellFormed(s.cache, s.now) && InOrder(s.cache, s.log)
    ensures var room := MakeRoom(s.cache, cfg.limits, s.now).cache;
            LeftByPut(cfg, s, room.entries.Keys) && room.puts == s.cache.puts + 1
  {
    var swept := Sweep(s.cache, cfg.limits, s.now).cache;
    SweepLeaves(cfg, s);
    SweepKeeps(s.cache, cfg.limits, s.now);
    SweepKeepsOrder(s.cache, cfg.limits, s.now, s.log);
    SizeOfKeys(swept.entries);
    EmptyTogether(swept);
    if swept.lru != [] {
      EvictTakesOldest(swept, s.log);
    }
  }

  lemma DroppedKeys(c: Cache, section: Section)
    requires Dropped(c, section)
    ensures section.removals.Keys == c.entries.Keys - section.cache.entries.Keys
  {
  }

  lemma LookupLeaves(cfg: Config, s: State, t: nat)
    requires t in s.ops && s.ops[t].GetFound?
    ensures Step(cfg, s, Locked(t)).cache.entries.Keys == s.cache.entries.Keys - ({s.ops[t].id} - FreshIds(cfg, s))
  {
    AnswerShape(cfg, s, t);
  }

  lemma CommitLeaves(cfg: Config, s: State, t: nat)
    requires OpsOk(cfg, s) && t in s.ops && s.ops[t].PutInserted?
    ensures var s', id := Step(cfg, s, Locked(t)), s.ops[t].id;
            && s'.cache.entries.Keys == s.cache.entries.Keys + {id} && id !in s.cache.entries
            && s'.cache.entries[id].put == s.ops[t].put
  {
    InsertedIsOwned(cfg, s, s.ops[t]);
  }

  /** The log names exactly the entries that left. */
  ghost predicate LogsGone(s: State, s': State) {
    s'.log == s.log + [Gone(s.cache.entries.Keys - s'.cache.entries.Keys)]
  }

  lemma PutSection(cfg: Config, s: State, t: nat)
    requires WellFormed(s.cache, s.now) && InOrder(s.cache, s.log) && t in s.ops && s.ops[t].PutReady?
    ensures var s' := Step(cfg, s, Locked(t));
            LeftByPut(cfg, s, s'.cache.entries.Keys) && LogsGone(s, s') && s'.cache.puts == s.cache.puts + 1
  {
    var room := MakeRoom(s.cache, cfg.limits, s.now);
    PutLeaves(cfg, s);
    AllocateShape(cfg, s, t);
    MakeRoomKeeps(s.cache, cfg.limits, s.now);
    DroppedKeys(s.cache, room);
    assert Step(cfg, s, Locked(t)).cache.entries == room.cache.entries;
  }

  lemma SweepSection(cfg: Config, s: State, t: nat)
    requires t in s.ops && s.ops[t].SweepReady?
    ensures var s' := Step(cfg, s, Locked(t)); s'.cache.entries.Keys == FreshIds(cfg, s) && LogsGone(s, s')
  {
    FreshIsNotStale(cfg, s, s.cache);
    EvictExpiredDrops(s.cache, cfg.limits, s.now);
    DroppedKeys(s.cache, EvictExpired(s.cache, cfg.limits, s.now));
  }

  lemma ClearSection(cfg: Config, s: State, t: nat)
    requires t in s.ops && s.ops[t].ClearReady?
    ensures var s' := Step(cfg, s, Locked(t)); s'.cache.entries.Keys == {} && LogsGone(s, s')
  {
    assert Clear(s.cache).removals.Keys == s.cache.entries.Keys;
    assert s.cache.entries.Keys - {} == s.cache.entries.Keys;
  }

  /** What one locked section removes: phase 1 of a put as above, the sweep everything older
      than the time to live, `clear` everything, a lookup an expired entry that it found and
      nothing else, and a commit nothing. */
  ghost predicate RemovesExactly(cfg: Config, s: State, t: nat)
    requires Enabled(cfg, s, Locked(t))
  {
    var s' := Step(cfg, s, Locked(t));
    var left := s'.cache.entries.Keys;
    match s.ops[t]
    case PutReady(_) => LeftByPut(cfg, s, left) && LogsGone(s, s') && s'.cache.puts == s.cache.puts + 1
    case PutInserted(put, id) =>
      left == s.cache.entries.Keys + {id} && id !in s.cache.entries && s'.cache.entries[id].put == put
    case GetFound(_, id, _) => left == s.cache.entries.Keys - ({id} - FreshIds(cfg, s))
    case ClearReady => left == {} && LogsGone(s, s')
    case SweepReady => left == FreshIds(cfg, s) && LogsGone(s, s')
  }

  /** In every run each locked section removes exactly what it should. */
  lemma DeparturesAreExact(cfg: Config, actions: seq<Action>, t: nat)
    requires IsRun(cfg, INITIAL, actions) && Enabled(cfg, End(cfg, INITIAL, actions), Locked(t))
    ensures RemovesExactly(cfg, End(cfg, INITIAL, actions), t)
  {
    ReachedInOrder(cfg, actions);
    var s := End(cfg, INITIAL, actions);
    match s.ops[t]
    case PutReady(_) => PutSection(cfg, s, t);
    case PutInserted(_, _) => CommitLeaves(cfg, s, t);
    case GetFound(_, _, _) => LookupLeaves(cfg, s, t);
    case ClearReady => ClearSection(cfg, s, t);
    case SweepReady => SweepSection(cfg, s, t);
  }
}
