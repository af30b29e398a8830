/** Concurrent runs of the cache over the partitioned index. Every call of `put`, `get`,
    `clear` and `evictExpired` is an operation in flight; a step is one critical section:
    either a locked section of the cache or one call into the index. */
module CacheRun {
  import opened PartitionedIndex
  import opened SemanticCache
  import opened Wrappers

  /** The embedder, the similarity and the hash of a model name are fixed functions. */
  datatype Config = Config(
    limits: Limits, maxPartitions: nat, threshold: real,
    embed: string -> Vec, score: (Vec, Vec) -> real, modelHash: string -> nat)

  datatype Op =
    | PutReady(put: Put)
    | PutFlush(put: Put, id: Id, removals: map<Id, Key>)
    | PutInserted(put: Put, id: Id)
    | GetReady(q: Query)
    | GetFound(q: Query, id: Id, vec: Vec)
    | ClearReady
    | SweepReady
    | Flush(removals: map<Id, Key>)

  datatype Event =
    | Stored(id: Id, put: Put, at: int)
    | Gone(ids: set<Id>)
    | Served(q: Query, id: Id, response: string, at: int)

  /** `log` records what happened; no step depends on it. */
  datatype State = State(cache: Cache, index: Partitions, ops: map<nat, Op>, now: int, log: seq<Event>)

  datatype Action =
    | Tick(elapsed: nat)
    | Begin(t: nat, op: Op)
    | Locked(t: nat)
    | Search(t: nat, found: Option<Id>)
    | RemoveVector(t: nat, id: Id)
    | InsertVector(t: nat, accepted: bool)

  const INITIAL := State(Cache(map[], [], {}, 0, 0), map[], map[], 0, [])

  function Home(cfg: Config, index: Partitions, key: Key): Key {
    ResolveKey(index.Keys, cfg.maxPartitions, key)
  }

  predicate MayBegin(op: Op) {
    match op
    case PutReady(put) => put.key != ""
    case GetReady(q) => q.key != ""
    case ClearReady | SweepReady => true
    case _ => false
  }

  /** The vectors an operation still has to remove. */
  function Pending(op: Op): map<Id, Key> {
    match op
    case PutFlush(_, _, removals) => removals
    case Flush(removals) => removals
    case _ => map[]
  }

  predicate Enabled(cfg: Config, s: State, a: Action) {
    match a
    case Tick(_) => true
    case Begin(t, op) => t !in s.ops && MayBegin(op)
    case Locked(t) =>
      && t in s.ops
      && (s.ops[t].PutReady? || s.ops[t].PutInserted? || s.ops[t].GetFound? || s.ops[t].ClearReady? || s.ops[t].SweepReady?)
    case Search(t, found) =>
      t in s.ops && s.ops[t].GetReady? && (found.Some? ==> MayFind(cfg, s.index, s.ops[t].q, found.value))
    case RemoveVector(t, id) => t in s.ops && id in Pending(s.ops[t])
    case InsertVector(t, _) => t in s.ops && s.ops[t].PutFlush? && s.ops[t].removals == map[]
  }

  /** The search sees one physical partition and returns only ids above the threshold. */
  predicate MayFind(cfg: Config, index: Partitions, q: Query, id: Id) {
    var visible := Lookup(index, cfg.maxPartitions, q.key);
    id in visible && (cfg.threshold > 0.0 ==> cfg.score(cfg.embed(q.prompt), visible[id]) >= cfg.threshold)
  }

  /** An operation with nothing left to remove is over. */
  function Flushing(ops: map<nat, Op>, t: nat, removals: map<Id, Key>): map<nat, Op> {
    if removals == map[] then ops - {t} else ops[t := Flush(removals)]
  }

  function LockedStep(cfg: Config, s: State, t: nat): State
    requires Enabled(cfg, s, Locked(t))
  {
    match s.ops[t]
    case PutReady(put) =>
      var section := Allocate(s.cache, cfg.limits, s.now);
      var id := EntryId(cfg.modelHash(put.model), s.cache.seqNo);
      s.(cache := section.cache, ops := s.ops[t := PutFlush(put, id, section.removals)],
         log := s.log + [Gone(section.removals.Keys)])
    case PutInserted(put, id) =>
      s.(cache := Commit(s.cache, s.now, id, put), ops := s.ops - {t}, log := s.log + [Stored(id, put, s.now)])
    case GetFound(q, id, _) =>
      var section := Answer(s.cache, cfg.limits, s.now, q, id);
      var judged := Judge(s.cache, cfg.limits, s.now, q, id);
      s.(cache := section.cache, ops := Flushing(s.ops, t, section.removals),
         log := s.log + match judged
                        case Hit(response, _) => [Served(q, id, response, s.now)]
                        case Expired => [Gone({id})]
                        case Miss => [])
    case ClearReady =>
      var section := Clear(s.cache);
      s.(cache := section.cache, ops := Flushing(s.ops, t, section.removals), log := s.log + [Gone(section.removals.Keys)])
    case SweepReady =>
      var section := EvictExpired(s.cache, cfg.limits, s.now);
      s.(cache := section.cache, ops := Flushing(s.ops, t, section.removals), log := s.log + [Gone(section.removals.Keys)])
  }

  function RemoveStep(cfg: Config, s: State, t: nat, id: Id): State
    requires Enabled(cfg, s, RemoveVector(t, id))
  {
    var op := s.ops[t];
    var left := Pending(op) - {id};
    s.(index := Remove(s.index, cfg.maxPartitions, Pending(op)[id], id),
       ops := if op.PutFlush? then s.ops[t := op.(removals := left)] else Flushing(s.ops, t, left))
  }

  function Step(cfg: Config, s: State, a: Action): State
    requires Enabled(cfg, s, a)
  {
    match a
    case Tick(elapsed) => s.(now := s.now + elapsed)
    case Begin(t, op) => s.(ops := s.ops[t := op])
    case Locked(t) => LockedStep(cfg, s, t)
    case Search(t, found) =>
      var q := s.ops[t].q;
      if found.None? then s.(ops := s.ops - {t})
      else s.(ops := s.ops[t := GetFound(q, found.value, Lookup(s.index, cfg.maxPartitions, q.key)[found.value])])
    case RemoveVector(t, id) => RemoveStep(cfg, s, t, id)
    case InsertVector(t, accepted) =>
      var PutFlush(put, id, _) := s.ops[t];
      var after := Insert(s.index, cfg.maxPartitions, put.key, id, cfg.embed(put.prompt), accepted);
      s.(index := after, ops := if accepted then s.ops[t := PutInserted(put, id)] else s.ops - {t})
  }

  // ---------------------------------------------------------------- agreement of cache and index

  /** The stored vectors an operation answers for: those it will remove and, once
      inserted, the one it will commit. */
  function Owned(op: Op): map<Id, Key> {
    match op
    case PutInserted(put, id) => map[id := put.key]
    case _ => Pending(op)
  }

  ghost predicate Placed(cfg: Config, index: Partitions, id: Id, key: Key) {
    key != "" && Home(cfg, index, key) in index && id in index[Home(cfg, index, key)]
  }

  /** Every cached entry has its vector in the partition its key resolves to. */
  ghost predicate EntriesPlaced(cfg: Config, s: State) {
    forall id <- s.cache.entries :: Placed(cfg, s.index, id, s.cache.entries[id].put.key)
  }

  ghost predicate OwnedByOp(cfg: Config, s: State, t: nat, id: Id, k: Key) {
    t in s.ops && id in Owned(s.ops[t]) && Home(cfg, s.index, Owned(s.ops[t])[id]) == k
  }

  ghost predicate OwnedByEntry(cfg: Config, s: State, id: Id, k: Key) {
    id in s.cache.entries && Home(cfg, s.index, s.cache.entries[id].put.key) == k
  }

  ghost predicate HasOwner(cfg: Config, s: State, id: Id, k: Key) {
    OwnedByEntry(cfg, s, id, k) || exists t :: OwnedByOp(cfg, s, t, id, k)
  }

  /** Every stored vector belongs to an entry or to an operation in flight. */
  ghost predicate Accounted(cfg: Config, s: State) {
    forall k <- s.index, id <- s.index[k] :: HasOwner(cfg, s, id, k)
  }

  ghost predicate AllIssued(s: State) {
    && (forall id <- s.cache.entries :: Issued(id, s.cache.seqNo))
    && (forall k <- s.index, id <- s.index[k] :: Issued(id, s.cache.seqNo))
  }

  ghost predicate Unused(s: State, id: Id) {
    id !in s.cache.entries && forall k <- s.index :: id !in s.index[k]
  }

  /** What holds of one operation in flight: the vectors it owns are stored where it will
      look for them and belong to no entry; an id taken in phase 1 is nowhere until it is
      inserted; an id found by a search is stored, if at all, where that search looked and
      with the vector it saw. */
  ghost predicate OpOk(cfg: Config, s: State, op: Op) {
    && (forall id <- Owned(op) :: Placed(cfg, s.index, id, Owned(op)[id]) && id !in s.cache.entries)
    && match op
       case PutReady(put) => put.key != ""
       case GetReady(q) => q.key != ""
       case PutFlush(put, id, _) => put.key != "" && Issued(id, s.cache.seqNo) && Unused(s, id)
       case GetFound(q, id, vec) =>
         && q.key != "" && Issued(id, s.cache.seqNo)
         && Home(cfg, s.index, q.key) in s.index
         && (forall k <- s.index :: id in s.index[k] ==> k == Home(cfg, s.index, q.key) && s.index[k][id] == vec)
       case _ => true
  }

  /** Two operations own different vectors, and an id taken in phase 1 is its own. */
  ghost predicate Apart(op: Op, other: Op) {
    && Owned(op).Keys !! Owned(other).Keys
    && (op.PutFlush? && (other.PutFlush? || other.GetFound?) ==> op.id != other.id)
  }

  ghost predicate OpsOk(cfg: Config, s: State) {
    && (forall t <- s.ops :: OpOk(cfg, s, s.ops[t]))
    && (forall t <- s.ops, u <- s.ops :: t != u ==> Apart(s.ops[t], s.ops[u]))
  }

  ghost predicate Agreement(cfg: Config, s: State) {
    EntriesPlaced(cfg, s) && Accounted(cfg, s) && AllIssued(s) && OpsOk(cfg, s)
  }

  /** With nothing in flight the index stores exactly the vectors of the entries, each in
      one partition. */
  lemma QuiescentAgreement(cfg: Config, s: State)
    requires Agreement(cfg, s) && s.ops == map[]
    ensures forall id :: id in s.cache.entries <==> exists k <- s.index :: id in s.index[k]
    ensures forall k <- s.index, id <- s.index[k] ::
              id in s.cache.entries && k == Home(cfg, s.index, s.cache.entries[id].put.key)
  {
    forall k <- s.index, id <- s.index[k]
      ensures id in s.cache.entries && k == Home(cfg, s.index, s.cache.entries[id].put.key)
    {
      assert forall t :: !OwnedByOp(cfg, s, t, id, k);
    }
    forall id <- s.cache.entries ensures exists k <- s.index :: id in s.index[k] {
      assert Placed(cfg, s.index, id, s.cache.entries[id].put.key);
    }
  }

  lemma OneHome(cfg: Config, s: State, id: Id, k: Key, k': Key)
    requires Accounted(cfg, s) && OpsOk(cfg, s)
    requires k in s.index && k' in s.index && id in s.index[k] && id in s.index[k']
    ensures k == k'
  {
    if id !in s.cache.entries {
      var t :| OwnedByOp(cfg, s, t, id, k);
      var u :| OwnedByOp(cfg, s, u, id, k');
      assert t != u ==> Apart(s.ops[t], s.ops[u]);
    } else {
      assert forall t :: OwnedByOp(cfg, s, t, id, k) || OwnedByOp(cfg, s, t, id, k') ==> OpOk(cfg, s, s.ops[t]);
    }
  }

  // ---------------------------------------------------------------- every step keeps agreement

  function WithOp(ops: map<nat, Op>, t: nat, op: Option<Op>): map<nat, Op> {
    if op.None? then ops - {t} else ops[t := op.value]
  }

  /** Replacing one operation: it is fine itself, the others still are, and it stays
      apart from them. */
  lemma ReplaceOp(cfg: Config, s: State, s': State, t: nat, op: Option<Op>)
    requires OpsOk(cfg, s) && s'.ops == WithOp(s.ops, t, op)
    requires forall u <- s.ops :: u != t ==> OpOk(cfg, s', s.ops[u])
    requires op.Some? ==> OpOk(cfg, s', op.value) && forall u <- s.ops :: u != t ==>
                            Apart(op.value, s.ops[u]) && Apart(s.ops[u], op.value)
    ensures OpsOk(cfg, s')
  {
    forall u <- s'.ops ensures OpOk(cfg, s', s'.ops[u]) {
      assert u == t || u in s.ops;
    }
    forall u <- s'.ops, v <- s'.ops | u != v ensures Apart(s'.ops[u], s'.ops[v]) {
      assert (u == t || u in s.ops) && (v == t || v in s.ops);
      assert u != t && v != t ==> Apart(s.ops[u], s.ops[v]);
    }
  }

  /** Vectors stay accounted for while the index stays, no entry leaves and no operation
      but `t` changes, which gives up no vector. */
  lemma AccountedAfter(cfg: Config, s: State, s': State, t: nat, op: Option<Op>)
    requires Accounted(cfg, s) && s'.index == s.index && s'.ops == WithOp(s.ops, t, op)
    requires forall id <- s.cache.entries :: id in s'.cache.entries && s'.cache.entries[id].put == s.cache.entries[id].put
    requires t in s.ops ==> Owned(s.ops[t]) == map[]
    ensures Accounted(cfg, s')
  {
    forall k <- s'.index, id <- s'.index[k] ensures HasOwner(cfg, s', id, k) {
      assert HasOwner(cfg, s, id, k);
      if !OwnedByEntry(cfg, s, id, k) {
        var u :| OwnedByOp(cfg, s, u, id, k);
        assert OwnedByOp(cfg, s', u, id, k);
      }
    }
  }

  ghost predicate SamePuts(c: Cache, d: Cache) {
    c.entries.Keys == d.entries.Keys && c.seqNo == d.seqNo && forall id <- c.entries :: c.entries[id].put == d.entries[id].put
  }

  lemma FrameOp(cfg: Config, s: State, s': State, op: Op)
    requires OpOk(cfg, s, op) && s'.index == s.index && SamePuts(s.cache, s'.cache)
    ensures OpOk(cfg, s', op)
  {
  }

  lemma FrameEntries(cfg: Config, s: State, s': State)
    requires EntriesPlaced(cfg, s) && AllIssued(s) && s'.index == s.index && SamePuts(s.cache, s'.cache)
    ensures EntriesPlaced(cfg, s') && AllIssued(s')
  {
  }

  /** Steps that move neither an entry nor a vector: an operation that owns none begins,
      advances or ends. */
  lemma QuietStep(cfg: Config, s: State, s': State, t: nat, op: Option<Op>)
    requires Agreement(cfg, s)
    requires s'.index == s.index && SamePuts(s.cache, s'.cache) && s'.ops == WithOp(s.ops, t, op)
    requires t in s.ops ==> Owned(s.ops[t]) == map[]
    requires op.Some? ==> Owned(op.value) == map[] && !op.value.PutFlush? && OpOk(cfg, s, op.value)
    requires op.Some? ==> forall u <- s.ops :: u != t ==> Apart(s.ops[u], op.value)
    ensures Agreement(cfg, s')
  {
    FrameEntries(cfg, s, s');
    assert Accounted(cfg, s') by {
      AccountedAfter(cfg, s, s', t, op);
    }
    assert OpsOk(cfg, s') by {
      forall u <- s.ops ensures OpOk(cfg, s', s.ops[u]) {
        FrameOp(cfg, s, s', s.ops[u]);
      }
      if op.Some? {
        FrameOp(cfg, s, s', op.value);
      }
      ReplaceOp(cfg, s, s', t, op);
    }
  }

  /** What a search finds is stored in the partition of the requested key and nowhere else. */
  lemma FoundIsOk(cfg: Config, s: State, q: Query, id: Id, vec: Vec)
    requires Accounted(cfg, s) && AllIssued(s) && OpsOk(cfg, s) && q.key != ""
    requires var home := Home(cfg, s.index, q.key); home in s.index && id in s.index[home] && s.index[home][id] == vec
    ensures OpOk(cfg, s, GetFound(q, id, vec))
  {
    var home := Home(cfg, s.index, q.key);
    forall k <- s.index | id in s.index[k] ensures k == home {
      OneHome(cfg, s, id, k, home);
    }
  }

  lemma FoundIsApart(cfg: Config, s: State, q: Query, id: Id, vec: Vec, op: Op)
    requires OpOk(cfg, s, op)
    requires var home := Home(cfg, s.index, q.key); home in s.index && id in s.index[home]
    ensures Apart(op, GetFound(q, id, vec))
  {
  }

  lemma SearchKeeps(cfg: Config, s: State, t: nat, found: Option<Id>)
    requires Agreement(cfg, s) && Enabled(cfg, s, Search(t, found))
    ensures Agreement(cfg, Step(cfg, s, Search(t, found)))
  {
    var s' := Step(cfg, s, Search(t, found));
    if found.Some? {
      assert OpOk(cfg, s, s.ops[t]);
      var GetFound(q, id, vec) := s'.ops[t];
      FoundIsOk(cfg, s, q, id, vec);
      forall u <- s.ops ensures Apart(s.ops[u], s'.ops[t]) {
        FoundIsApart(cfg, s, q, id, vec, s.ops[u]);
      }
      QuietStep(cfg, s, s', t, Some(s'.ops[t]));
    } else {
      QuietStep(cfg, s, s', t, None);
    }
  }

  // Entries leave the cache and their vectors become the responsibility of operation `t`.

  ghost predicate HandsOver(cfg: Config, s: State, s': State, removals: map<Id, Key>) {
    && s'.index == s.index
    && removals.Keys <= s.cache.entries.Keys
    && s'.cache.entries.Keys == s.cache.entries.Keys - removals.Keys
    && (forall id <- s'.cache.entries :: s'.cache.entries[id].put == s.cache.entries[id].put)
    && (forall id <- removals ::
          removals[id] != "" && Home(cfg, s.index, removals[id]) == Home(cfg, s.index, s.cache.entries[id].put.key))
    && s.cache.seqNo <= s'.cache.seqNo
  }

  lemma HandOverEntries(cfg: Config, s: State, s': State, removals: map<Id, Key>)
    requires EntriesPlaced(cfg, s) && AllIssued(s) && HandsOver(cfg, s, s', removals)
    ensures EntriesPlaced(cfg, s') && AllIssued(s')
  {
    assert forall id :: Issued(id, s.cache.seqNo) ==> Issued(id, s'.cache.seqNo);
  }

  lemma HandOverOp(cfg: Config, s: State, s': State, removals: map<Id, Key>, op: Op)
    requires OpOk(cfg, s, op) && HandsOver(cfg, s, s', removals)
    ensures OpOk(cfg, s', op)
  {
    assert forall id :: Issued(id, s.cache.seqNo) ==> Issued(id, s'.cache.seqNo);
  }

  lemma HandOverVector(cfg: Config, s: State, s': State, t: nat, removals: map<Id, Key>, op: Option<Op>, id: Id, k: Key)
    requires HasOwner(cfg, s, id, k) && HandsOver(cfg, s, s', removals)
    requires t in s.ops && Owned(s.ops[t]) == map[] && s'.ops == WithOp(s.ops, t, op)
    requires if op.None? then removals == map[] else Owned(op.value) == removals
    ensures HasOwner(cfg, s', id, k)
  {
    if u :| OwnedByOp(cfg, s, u, id, k) {
      assert OwnedByOp(cfg, s', u, id, k);
    } else if id in removals {
      assert OwnedByOp(cfg, s', t, id, k);
    } else {
      assert OwnedByEntry(cfg, s', id, k);
    }
  }

  lemma HandOverAccounted(cfg: Config, s: State, s': State, t: nat, removals: map<Id, Key>, op: Option<Op>)
    requires Accounted(cfg, s) && HandsOver(cfg, s, s', removals)
    requires t in s.ops && Owned(s.ops[t]) == map[] && s'.ops == WithOp(s.ops, t, op)
    requires if op.None? then removals == map[] else Owned(op.value) == removals
    ensures Accounted(cfg, s')
  {
    forall k <- s'.index, id <- s'.index[k] ensures HasOwner(cfg, s', id, k) {
      HandOverVector(cfg, s, s', t, removals, op, id, k);
    }
  }

  lemma HandOverNewIsOk(cfg: Config, s: State, s': State, removals: map<Id, Key>, op: Op)
    requires EntriesPlaced(cfg, s) && AllIssued(s) && HandsOver(cfg, s, s', removals)
    requires (op.Flush? || op.PutFlush?) && op.removals == removals
    requires op.PutFlush? ==> !Issued(op.id, s.cache.seqNo) && Issued(op.id, s'.cache.seqNo) && op.put.key != ""
    ensures OpOk(cfg, s', op)
  {
    assert forall id <- removals :: Placed(cfg, s.index, id, s.cache.entries[id].put.key);
  }

  lemma HandOverNewIsApart(cfg: Config, s: State, removals: map<Id, Key>, op: Op, other: Op)
    requires removals.Keys <= s.cache.entries.Keys && (op.Flush? || op.PutFlush?) && op.removals == removals
    requires op.PutFlush? ==> !Issued(op.id, s.cache.seqNo)
    requires OpOk(cfg, s, other)
    ensures Apart(op, other) && Apart(other, op)
  {
  }

  lemma HandOverNew(cfg: Config, s: State, s': State, removals: map<Id, Key>, op: Op)
    requires EntriesPlaced(cfg, s) && AllIssued(s) && HandsOver(cfg, s, s', removals)
    requires (op.Flush? || op.PutFlush?) && op.removals == removals
    requires op.PutFlush? ==> !Issued(op.id, s.cache.seqNo) && Issued(op.id, s'.cache.seqNo) && op.put.key != ""
    ensures OpOk(cfg, s', op)
    ensures forall other :: OpOk(cfg, s, other) ==> Apart(op, other) && Apart(other, op)
  {
    HandOverNewIsOk(cfg, s, s', removals, op);
    forall other | OpOk(cfg, s, other) ensures Apart(op, other) && Apart(other, op) {
      HandOverNewIsApart(cfg, s, removals, op, other);
    }
  }

  lemma HandOverOps(cfg: Config, s: State, s': State, t: nat, removals: map<Id, Key>, op: Option<Op>)
    requires OpsOk(cfg, s) && HandsOver(cfg, s, s', removals) && s'.ops == WithOp(s.ops, t, op)
    requires op.Some? ==> OpOk(cfg, s', op.value) && forall other :: OpOk(cfg, s, other) ==>
                            Apart(op.value, other) && Apart(other, op.value)
    ensures OpsOk(cfg, s')
  {
    forall u <- s.ops ensures OpOk(cfg, s, s.ops[u]) && OpOk(cfg, s', s.ops[u]) {
      HandOverOp(cfg, s, s', removals, s.ops[u]);
    }
    ReplaceOp(cfg, s, s', t, op);
  }

  lemma FlushOwns(op: Op)
    requires op.Flush? || op.PutFlush?
    ensures Owned(op) == op.removals
  {
  }

  lemma HandOverAllOps(cfg: Config, s: State, s': State, t: nat, removals: map<Id, Key>, op: Option<Op>)
    requires EntriesPlaced(cfg, s) && AllIssued(s) && OpsOk(cfg, s) && HandsOver(cfg, s, s', removals)
    requires s'.ops == WithOp(s.ops, t, op)
    requires op.Some? ==> (op.value.Flush? || op.value.PutFlush?) && op.value.removals == removals
    requires op.Some? && op.value.PutFlush? ==>
               !Issued(op.value.id, s.cache.seqNo) && Issued(op.value.id, s'.cache.seqNo) && op.value.put.key != ""
    ensures OpsOk(cfg, s')
  {
    if op.Some? {
      HandOverNew(cfg, s, s', removals, op.value);
    }
    HandOverOps(cfg, s, s', t, removals, op);
  }

  lemma HandOver(cfg: Config, s: State, s': State, t: nat, removals: map<Id, Key>, op: Option<Op>)
    requires Agreement(cfg, s) && HandsOver(cfg, s, s', removals)
    requires t in s.ops && Owned(s.ops[t]) == map[] && s'.ops == WithOp(s.ops, t, op)
    requires if op.None? then removals == map[] else (op.value.Flush? || op.value.PutFlush?) && op.value.removals == removals
    requires op.Some? && op.value.PutFlush? ==>
               !Issued(op.value.id, s.cache.seqNo) && Issued(op.value.id, s'.cache.seqNo) && op.value.put.key != ""
    ensures Agreement(cfg, s')
  {
    HandOverEntries(cfg, s, s', removals);
    if op.Some? {
      FlushOwns(op.value);
    }
    HandOverAccounted(cfg, s, s', t, removals, op);
    HandOverAllOps(cfg, s, s', t, removals, op);
  }

  /** What is dropped is handed over. */
  lemma DroppedHandsOver(cfg: Config, s: State, s': State, section: Section)
    requires EntriesPlaced(cfg, s) && Dropped(s.cache, section) && s'.index == s.index
    requires s'.cache.entries == section.cache.entries && s.cache.seqNo <= s'.cache.seqNo
    ensures HandsOver(cfg, s, s', section.removals)
  {
    assert forall id <- section.removals :: Placed(cfg, s.index, id, s.cache.entries[id].put.key);
  }

  lemma AllocateShape(cfg: Config, s: State, t: nat)
    requires t in s.ops && s.ops[t].PutReady?
    ensures var s', room := Step(cfg, s, Locked(t)), MakeRoom(s.cache, cfg.limits, s.now);
            var id := EntryId(cfg.modelHash(s.ops[t].put.model), s.cache.seqNo);
            && s'.index == s.index && s'.cache == room.cache.(seqNo := room.cache.seqNo + 1)
            && s'.ops == s.ops[t := PutFlush(s.ops[t].put, id, room.removals)]
  {
  }

  lemma AllocateKeeps(cfg: Config, s: State, t: nat)
    requires Agreement(cfg, s) && WellFormed(s.cache, s.now)
    requires t in s.ops && s.ops[t].PutReady?
    ensures Agreement(cfg, Step(cfg, s, Locked(t)))
  {
    var s', room := Step(cfg, s, Locked(t)), MakeRoom(s.cache, cfg.limits, s.now);
    MakeRoomKeeps(s.cache, cfg.limits, s.now);
    AllocateShape(cfg, s, t);
    NextIdIsFresh(cfg.modelHash(s.ops[t].put.model), s.cache.seqNo);
    assert OpOk(cfg, s, s.ops[t]);
    DroppedHandsOver(cfg, s, s', room);
    HandOver(cfg, s, s', t, room.removals, Some(s'.ops[t]));
  }

  /** `clear` and `evictExpired` hand over what they drop. */
  lemma DropKeeps(cfg: Config, s: State, s': State, t: nat, section: Section)
    requires Agreement(cfg, s) && t in s.ops && Owned(s.ops[t]) == map[]
    requires Dropped(s.cache, section)
    requires s'.cache == section.cache && s'.index == s.index && s'.ops == Flushing(s.ops, t, section.removals)
    ensures Agreement(cfg, s')
  {
    DroppedHandsOver(cfg, s, s', section);
    HandOver(cfg, s, s', t, section.removals, if section.removals == map[] then None else Some(Flush(section.removals)));
  }

  lemma ClearKeeps(cfg: Config, s: State, t: nat)
    requires Agreement(cfg, s) && t in s.ops && s.ops[t].ClearReady?
    ensures Agreement(cfg, Step(cfg, s, Locked(t)))
  {
    DropKeeps(cfg, s, Step(cfg, s, Locked(t)), t, Clear(s.cache));
  }

  lemma SweepStepKeeps(cfg: Config, s: State, t: nat)
    requires Agreement(cfg, s) && t in s.ops && s.ops[t].SweepReady?
    ensures Agreement(cfg, Step(cfg, s, Locked(t)))
  {
    EvictExpiredDrops(s.cache, cfg.limits, s.now);
    DropKeeps(cfg, s, Step(cfg, s, Locked(t)), t, EvictExpired(s.cache, cfg.limits, s.now));
  }

  lemma ExpiredHandsOver(cfg: Config, s: State, s': State, op: Op)
    requires EntriesPlaced(cfg, s) && OpOk(cfg, s, op) && op.GetFound? && op.id in s.cache.entries
    requires s'.cache == Forget(s.cache, {op.id}) && s'.index == s.index
    ensures HandsOver(cfg, s, s', map[op.id := op.q.key])
  {
    assert Placed(cfg, s.index, op.id, s.cache.entries[op.id].put.key);
  }

  /** A search may surface an expired entry of another logical key that shares the
      partition; its vector is then removed through the requested key. */
  lemma ExpiredKeeps(cfg: Config, s: State, s': State, t: nat)
    requires Agreement(cfg, s) && t in s.ops && s.ops[t].GetFound? && s.ops[t].id in s.cache.entries
    requires s'.cache == Forget(s.cache, {s.ops[t].id}) && s'.index == s.index
    requires s'.ops == s.ops[t := Flush(map[s.ops[t].id := s.ops[t].q.key])]
    ensures Agreement(cfg, s')
  {
    var GetFound(q, id, _) := s.ops[t];
    ExpiredHandsOver(cfg, s, s', s.ops[t]);
    HandOver(cfg, s, s', t, map[id := q.key], Some(Flush(map[id := q.key])));
  }

  lemma AnswerShape(cfg: Config, s: State, t: nat)
    requires t in s.ops && s.ops[t].GetFound?
    ensures var s' := Step(cfg, s, Locked(t));
            && s'.index == s.index
            && if Judge(s.cache, cfg.limits, s.now, s.ops[t].q, s.ops[t].id).Expired?
               then && s.ops[t].id in s.cache.entries && s'.cache == Forget(s.cache, {s.ops[t].id})
                    && s'.ops == s.ops[t := Flush(map[s.ops[t].id := s.ops[t].q.key])]
               else SamePuts(s.cache, s'.cache) && s'.ops == s.ops - {t}
  {
    assert s.ops[t].id in map[s.ops[t].id := s.ops[t].q.key];
  }

  lemma AnswerKeeps(cfg: Config, s: State, t: nat)
    requires Agreement(cfg, s) && t in s.ops && s.ops[t].GetFound?
    ensures Agreement(cfg, Step(cfg, s, Locked(t)))
  {
    AnswerShape(cfg, s, t);
    if Judge(s.cache, cfg.limits, s.now, s.ops[t].q, s.ops[t].id).Expired? {
      ExpiredKeeps(cfg, s, Step(cfg, s, Locked(t)), t);
    } else {
      QuietStep(cfg, s, Step(cfg, s, Locked(t)), t, None);
    }
  }

  // ---------------------------------------------------------------- commit

  lemma CommitOp(cfg: Config, s: State, s': State, id: Id, op: Op, own: Op)
    requires OpOk(cfg, s, op) && OpOk(cfg, s, own) && Apart(op, own) && own.PutInserted? && own.id == id
    requires s'.index == s.index && s'.cache.seqNo == s.cache.seqNo && s'.cache.entries.Keys == s.cache.entries.Keys + {id}
    ensures OpOk(cfg, s', op)
  {
    assert id in Owned(own);
    assert Placed(cfg, s.index, id, own.put.key);
  }

  lemma CommitEntries(cfg: Config, s: State, s': State, put: Put, id: Id)
    requires EntriesPlaced(cfg, s) && AllIssued(s) && Placed(cfg, s.index, id, put.key)
    requires s'.index == s.index && s'.cache == Commit(s.cache, s.now, id, put)
    ensures EntriesPlaced(cfg, s') && AllIssued(s')
  {
    var k := Home(cfg, s.index, put.key);
    assert id in s.index[k];
  }

  lemma CommitAccounted(cfg: Config, s: State, s': State, t: nat)
    requires Accounted(cfg, s) && t in s.ops && s.ops[t].PutInserted? && s.ops[t].id !in s.cache.entries
    requires s'.index == s.index && s'.ops == s.ops - {t} && s'.cache == Commit(s.cache, s.now, s.ops[t].id, s.ops[t].put)
    ensures Accounted(cfg, s')
  {
    forall k <- s'.index, i <- s'.index[k] ensures HasOwner(cfg, s', i, k) {
      assert HasOwner(cfg, s, i, k);
      if OwnedByEntry(cfg, s, i, k) {
        assert OwnedByEntry(cfg, s', i, k);
      } else {
        var u :| OwnedByOp(cfg, s, u, i, k);
        assert if u == t then OwnedByEntry(cfg, s', i, k) else OwnedByOp(cfg, s', u, i, k);
      }
    }
  }

  lemma CommitOps(cfg: Config, s: State, s': State, t: nat)
    requires OpsOk(cfg, s) && t in s.ops && s.ops[t].PutInserted?
    requires s'.index == s.index && s'.ops == s.ops - {t} && s'.cache == Commit(s.cache, s.now, s.ops[t].id, s.ops[t].put)
    ensures OpsOk(cfg, s')
  {
    forall u <- s.ops | u != t ensures OpOk(cfg, s', s.ops[u]) {
      assert Apart(s.ops[u], s.ops[t]);
      CommitOp(cfg, s, s', s.ops[t].id, s.ops[u], s.ops[t]);
    }
    ReplaceOp(cfg, s, s', t, None);
  }

  lemma InsertedIsOwned(cfg: Config, s: State, op: Op)
    requires OpOk(cfg, s, op) && op.PutInserted?
    ensures op.id !in s.cache.entries && Placed(cfg, s.index, op.id, op.put.key)
  {
    assert op.id in Owned(op);
  }

  lemma CommitKeepsAgreement(cfg: Config, s: State, t: nat)
    requires Agreement(cfg, s) && t in s.ops && s.ops[t].PutInserted?
    ensures s.ops[t].id !in s.cache.entries
    ensures Agreement(cfg, Step(cfg, s, Locked(t)))
  {
    var s' := Step(cfg, s, Locked(t));
    InsertedIsOwned(cfg, s, s.ops[t]);
    CommitEntries(cfg, s, s', s.ops[t].put, s.ops[t].id);
    CommitAccounted(cfg, s, s', t);
    CommitOps(cfg, s, s', t);
  }

  // ---------------------------------------------------------------- index calls

  lemma RemoveOp(cfg: Config, s: State, s': State, k: Key, id: Id, op: Op)
    requires OpOk(cfg, s, op) && k in s.index && id !in Owned(op)
    requires s'.cache == s.cache && s'.index == s.index[k := s.index[k] - {id}]
    ensures OpOk(cfg, s', op)
  {
    assert s'.index.Keys == s.index.Keys;
  }

  lemma RemovedOwn(cfg: Config, s: State, s': State, k: Key, id: Id, op: Op, next: Op)
    requires OpOk(cfg, s, op) && k in s.index
    requires s'.cache == s.cache && s'.index == s.index[k := s.index[k] - {id}]
    requires (op.PutFlush? && next == op.(removals := op.removals - {id})) || (op.Flush? && next == Flush(op.removals - {id}))
    ensures OpOk(cfg, s', next)
  {
    assert s'.index.Keys == s.index.Keys;
  }

  /** What is left of an operation once it has removed the vector of `id`. */
  function Next(op: Op, id: Id): Option<Op> {
    if op.PutFlush? then Some(op.(removals := op.removals - {id}))
    else if Pending(op) - {id} == map[] then None
    else Some(Flush(Pending(op) - {id}))
  }

  lemma NextStillOwns(op: Op, id: Id, i: Id)
    requires id in Pending(op) && i in Owned(op) && i != id
    ensures Next(op, id).Some? && i in Owned(Next(op, id).value) && Owned(Next(op, id).value)[i] == Owned(op)[i]
  {
    assert i in Pending(op) - {id};
  }

  lemma RemovedVector(cfg: Config, s: State, s': State, t: nat, id: Id, i: Id, j: Key)
    requires HasOwner(cfg, s, i, j) && t in s.ops && id in Pending(s.ops[t]) && i != id
    requires s'.cache == s.cache && s'.index.Keys == s.index.Keys && s'.ops == WithOp(s.ops, t, Next(s.ops[t], id))
    ensures HasOwner(cfg, s', i, j)
  {
    if OwnedByEntry(cfg, s, i, j) {
      assert OwnedByEntry(cfg, s', i, j);
    } else {
      var u :| OwnedByOp(cfg, s, u, i, j);
      if u == t {
        NextStillOwns(s.ops[t], id, i);
      }
      assert OwnedByOp(cfg, s', u, i, j);
    }
  }

  lemma OnlyHome(cfg: Config, s: State, id: Id, k: Key)
    requires Accounted(cfg, s) && OpsOk(cfg, s) && k in s.index && id in s.index[k]
    ensures forall j <- s.index :: id in s.index[j] ==> j == k
  {
    forall j <- s.index | id in s.index[j] ensures j == k {
      OneHome(cfg, s, id, j, k);
    }
  }

  lemma RemovedAccounted(cfg: Config, s: State, s': State, t: nat, id: Id, k: Key)
    requires Accounted(cfg, s) && t in s.ops && id in Pending(s.ops[t])
    requires k in s.index && forall j <- s.index :: id in s.index[j] ==> j == k
    requires s'.cache == s.cache && s'.index == s.index[k := s.index[k] - {id}]
    requires s'.ops == WithOp(s.ops, t, Next(s.ops[t], id))
    ensures Accounted(cfg, s')
  {
    assert s'.index.Keys == s.index.Keys;
    forall j <- s'.index, i <- s'.index[j] ensures HasOwner(cfg, s', i, j) {
      assert i in s.index[j] && HasOwner(cfg, s, i, j);
      RemovedVector(cfg, s, s', t, id, i, j);
    }
  }

  lemma RemovedOps(cfg: Config, s: State, s': State, t: nat, id: Id, k: Key)
    requires OpsOk(cfg, s) && t in s.ops && id in Pending(s.ops[t]) && k in s.index
    requires s'.cache == s.cache && s'.index == s.index[k := s.index[k] - {id}]
    requires s'.ops == WithOp(s.ops, t, Next(s.ops[t], id))
    ensures OpsOk(cfg, s')
  {
    var op, next := s.ops[t], Next(s.ops[t], id);
    forall u <- s.ops | u != t ensures OpOk(cfg, s', s.ops[u]) {
      assert Apart(op, s.ops[u]);
      assert id in Owned(op);
      RemoveOp(cfg, s, s', k, id, s.ops[u]);
    }
    if next.Some? {
      RemovedOwn(cfg, s, s', k, id, op, next.value);
      forall u <- s.ops | u != t ensures Apart(next.value, s.ops[u]) && Apart(s.ops[u], next.value) {
        assert Apart(op, s.ops[u]) && Apart(s.ops[u], op);
      }
    }
    ReplaceOp(cfg, s, s', t, next);
  }

  lemma RemovedEntries(cfg: Config, s: State, s': State, k: Key, id: Id)
    requires EntriesPlaced(cfg, s) && AllIssued(s) && k in s.index && id !in s.cache.entries
    requires s'.cache == s.cache && s'.index == s.index[k := s.index[k] - {id}]
    ensures EntriesPlaced(cfg, s') && AllIssued(s')
  {
    assert s'.index.Keys == s.index.Keys;
    forall i <- s'.cache.entries ensures Placed(cfg, s'.index, i, s'.cache.entries[i].put.key) {
      assert Placed(cfg, s.index, i, s.cache.entries[i].put.key);
    }
  }

  lemma RemoveStepShape(cfg: Config, s: State, t: nat, id: Id)
    requires Enabled(cfg, s, RemoveVector(t, id)) && OpOk(cfg, s, s.ops[t])
    ensures id !in s.cache.entries
    ensures var k, s' := Home(cfg, s.index, Pending(s.ops[t])[id]), Step(cfg, s, RemoveVector(t, id));
            && k in s.index && id in s.index[k] && s'.cache == s.cache
            && s'.index == s.index[k := s.index[k] - {id}]
            && s'.ops == WithOp(s.ops, t, Next(s.ops[t], id))
  {
    assert id in Owned(s.ops[t]);
    assert Placed(cfg, s.index, id, Pending(s.ops[t])[id]);
  }

  lemma RemoveVectorKeeps(cfg: Config, s: State, t: nat, id: Id)
    requires Agreement(cfg, s) && Enabled(cfg, s, RemoveVector(t, id))
    ensures Agreement(cfg, Step(cfg, s, RemoveVector(t, id)))
  {
    RemoveStepShape(cfg, s, t, id);
    var s' := Step(cfg, s, RemoveVector(t, id));
    var k := Home(cfg, s.index, Pending(s.ops[t])[id]);
    RemovedEntries(cfg, s, s', k, id);
    OnlyHome(cfg, s, id, k);
    RemovedAccounted(cfg, s, s', t, id, k);
    RemovedOps(cfg, s, s', t, id, k);
  }

  /** One insert: partition `target` exists afterwards, and if the vector was accepted it
      holds `id`, which no partition held before. Homes do not move. */
  ghost predicate Grown(cfg: Config, s: State, s': State, id: Id, vec: Vec, accepted: bool, target: Key) {
    && s'.cache == s.cache
    && s'.index.Keys == s.index.Keys + {target}
    && (forall k <- s.index :: s'.index[k] == if k == target && accepted then s.index[k][id := vec] else s.index[k])
    && (target !in s.index ==> s'.index[target] == if accepted then map[id := vec] else map[])
    && (forall key :: Home(cfg, s.index, key) in s.index ==> Home(cfg, s'.index, key) == Home(cfg, s.index, key))
  }

  lemma HomesStay(cfg: Config, index: Partitions, index': Partitions, key: Key)
    requires key != "" && index'.Keys == index.Keys + {InsertTarget(index.Keys, cfg.maxPartitions, key)}
    ensures Home(cfg, index', key) == InsertTarget(index.Keys, cfg.maxPartitions, key)
    ensures forall k :: Home(cfg, index, k) in index ==> Home(cfg, index', k) == Home(cfg, index, k)
  {
    LookupAfterInsert(index.Keys, cfg.maxPartitions, key);
    forall k | Home(cfg, index, k) in index ensures Home(cfg, index', k) == Home(cfg, index, k) {
      ResolutionIsStable(index.Keys, cfg.maxPartitions, k, key);
    }
  }

  lemma InsertedContents(p: Partitions, maxPartitions: nat, key: Key, id: Id, vec: Vec, accepted: bool)
    requires forall k <- p :: id !in p[k]
    ensures var q, target := Insert(p, maxPartitions, key, id, vec, accepted), InsertTarget(p.Keys, maxPartitions, key);
            && q.Keys == p.Keys + {target}
            && (forall k <- p :: q[k] == if k == target && accepted then p[k][id := vec] else p[k])
            && (target !in p ==> q[target] == if accepted then map[id := vec] else map[])
  {
  }

  lemma InsertGrows(cfg: Config, s: State, s': State, put: Put, id: Id, accepted: bool)
    requires put.key != "" && Unused(s, id) && s'.cache == s.cache
    requires s'.index == Insert(s.index, cfg.maxPartitions, put.key, id, cfg.embed(put.prompt), accepted)
    ensures var target := InsertTarget(s.index.Keys, cfg.maxPartitions, put.key);
            Grown(cfg, s, s', id, cfg.embed(put.prompt), accepted, target) && Home(cfg, s'.index, put.key) == target
  {
    InsertedContents(s.index, cfg.maxPartitions, put.key, id, cfg.embed(put.prompt), accepted);
    HomesStay(cfg, s.index, s'.index, put.key);
  }

  lemma InsertStepShape(cfg: Config, s: State, t: nat, accepted: bool)
    requires Enabled(cfg, s, InsertVector(t, accepted)) && OpOk(cfg, s, s.ops[t])
    ensures var PutFlush(put, id, _) := s.ops[t];
            var s', target := Step(cfg, s, InsertVector(t, accepted)), InsertTarget(s.index.Keys, cfg.maxPartitions, put.key);
            && Grown(cfg, s, s', id, cfg.embed(put.prompt), accepted, target)
            && Home(cfg, s'.index, put.key) == target
            && s'.ops == WithOp(s.ops, t, if accepted then Some(PutInserted(put, id)) else None)
  {
    InsertGrows(cfg, s, Step(cfg, s, InsertVector(t, accepted)), s.ops[t].put, s.ops[t].id, accepted);
  }

  lemma GrownPlaced(cfg: Config, s: State, s': State, id: Id, vec: Vec, accepted: bool, target: Key, i: Id, key: Key)
    requires Grown(cfg, s, s', id, vec, accepted, target) && Placed(cfg, s.index, i, key)
    ensures Placed(cfg, s'.index, i, key)
  {
  }

  lemma GrownOp(cfg: Config, s: State, s': State, id: Id, vec: Vec, accepted: bool, target: Key, op: Op)
    requires Grown(cfg, s, s', id, vec, accepted, target) && OpOk(cfg, s, op) && Unused(s, id)
    requires op.PutFlush? || op.GetFound? ==> op.id != id
    ensures OpOk(cfg, s', op)
    ensures id !in Owned(op)
  {
    forall i <- Owned(op) ensures Placed(cfg, s'.index, i, Owned(op)[i]) {
      GrownPlaced(cfg, s, s', id, vec, accepted, target, i, Owned(op)[i]);
    }
    assert forall k <- s'.index, i <- s'.index[k] ::
             i == id || (k in s.index && i in s.index[k] && s'.index[k][i] == s.index[k][i]);
  }

  lemma GrownEntries(cfg: Config, s: State, s': State, id: Id, vec: Vec, accepted: bool, target: Key)
    requires Grown(cfg, s, s', id, vec, accepted, target) && EntriesPlaced(cfg, s) && AllIssued(s)
    requires Issued(id, s.cache.seqNo)
    ensures EntriesPlaced(cfg, s') && AllIssued(s')
  {
    forall i <- s'.cache.entries ensures Placed(cfg, s'.index, i, s'.cache.entries[i].put.key) {
      GrownPlaced(cfg, s, s', id, vec, accepted, target, i, s.cache.entries[i].put.key);
    }
    assert forall k <- s'.index, i <- s'.index[k] :: i == id || (k in s.index && i in s.index[k]);
  }

  lemma GrownOwner(cfg: Config, s: State, s': State, t: nat, accepted: bool, i: Id, k: Key)
    requires t in s.ops && s.ops[t].PutFlush? && s.ops[t].removals == map[]
    requires s'.cache == s.cache
    requires s'.ops == WithOp(s.ops, t, if accepted then Some(PutInserted(s.ops[t].put, s.ops[t].id)) else None)
    requires forall key :: Home(cfg, s.index, key) in s.index ==> Home(cfg, s'.index, key) == Home(cfg, s.index, key)
    requires HasOwner(cfg, s, i, k) && k in s.index
    ensures HasOwner(cfg, s', i, k)
  {
    if OwnedByEntry(cfg, s, i, k) {
      assert OwnedByEntry(cfg, s', i, k);
    } else {
      var u :| OwnedByOp(cfg, s, u, i, k);
      assert OwnedByOp(cfg, s', u, i, k);
    }
  }

  lemma GrownAccounted(cfg: Config, s: State, s': State, t: nat, vec: Vec, accepted: bool, target: Key)
    requires Accounted(cfg, s) && t in s.ops && s.ops[t].PutFlush? && s.ops[t].removals == map[] && Unused(s, s.ops[t].id)
    requires Grown(cfg, s, s', s.ops[t].id, vec, accepted, target) && Home(cfg, s'.index, s.ops[t].put.key) == target
    requires s'.ops == WithOp(s.ops, t, if accepted then Some(PutInserted(s.ops[t].put, s.ops[t].id)) else None)
    ensures Accounted(cfg, s')
  {
    forall k <- s'.index, i <- s'.index[k] ensures HasOwner(cfg, s', i, k) {
      if i == s.ops[t].id {
        assert OwnedByOp(cfg, s', t, i, k);
      } else {
        assert k in s.index && i in s.index[k];
        GrownOwner(cfg, s, s', t, accepted, i, k);
      }
    }
  }

  lemma InsertedIsApart(put: Put, id: Id, op: Op)
    requires id !in Owned(op)
    ensures Apart(PutInserted(put, id), op) && Apart(op, PutInserted(put, id))
  {
  }

  lemma GrownOther(cfg: Config, s: State, s': State, t: nat, vec: Vec, accepted: bool, target: Key, u: nat)
    requires OpsOk(cfg, s) && t in s.ops && s.ops[t].PutFlush? && u in s.ops && u != t
    requires Grown(cfg, s, s', s.ops[t].id, vec, accepted, target)
    ensures OpOk(cfg, s', s.ops[u]) && s.ops[t].id !in Owned(s.ops[u])
  {
    assert OpOk(cfg, s, s.ops[t]) && Apart(s.ops[t], s.ops[u]);
    GrownOp(cfg, s, s', s.ops[t].id, vec, accepted, target, s.ops[u]);
  }

  lemma GrownHolds(cfg: Config, s: State, s': State, id: Id, vec: Vec, target: Key)
    requires Grown(cfg, s, s', id, vec, true, target)
    ensures target in s'.index && id in s'.index[target]
  {
  }

  lemma InsertedIsOk(cfg: Config, s: State, put: Put, id: Id)
    requires Placed(cfg, s.index, id, put.key) && id !in s.cache.entries
    ensures OpOk(cfg, s, PutInserted(put, id))
  {
  }

  lemma GrownOps(cfg: Config, s: State, s': State, t: nat, vec: Vec, accepted: bool, target: Key)
    requires OpsOk(cfg, s) && t in s.ops && s.ops[t].PutFlush?
    requires Grown(cfg, s, s', s.ops[t].id, vec, accepted, target) && Home(cfg, s'.index, s.ops[t].put.key) == target
    requires s'.ops == WithOp(s.ops, t, if accepted then Some(PutInserted(s.ops[t].put, s.ops[t].id)) else None)
    ensures OpsOk(cfg, s')
  {
    var PutFlush(put, id, _) := s.ops[t];
    forall u <- s.ops | u != t
      ensures OpOk(cfg, s', s.ops[u]) && Apart(PutInserted(put, id), s.ops[u]) && Apart(s.ops[u], PutInserted(put, id))
    {
      GrownOther(cfg, s, s', t, vec, accepted, target, u);
      InsertedIsApart(put, id, s.ops[u]);
    }
    if accepted {
      assert OpOk(cfg, s, s.ops[t]);
      GrownHolds(cfg, s, s', id, vec, target);
      InsertedIsOk(cfg, s', put, id);
    }
    ReplaceOp(cfg, s, s', t, if accepted then Some(PutInserted(put, id)) else None);
  }

  lemma InsertVectorKeeps(cfg: Config, s: State, t: nat, accepted: bool)
    requires Agreement(cfg, s) && Enabled(cfg, s, InsertVector(t, accepted))
    ensures Agreement(cfg, Step(cfg, s, InsertVector(t, accepted)))
  {
    assert OpOk(cfg, s, s.ops[t]);
    InsertStepShape(cfg, s, t, accepted);
    var PutFlush(put, id, _) := s.ops[t];
    var s', target := Step(cfg, s, InsertVector(t, accepted)), InsertTarget(s.index.Keys, cfg.maxPartitions, put.key);
    var vec := cfg.embed(put.prompt);
    GrownEntries(cfg, s, s', id, vec, accepted, target);
    GrownAccounted(cfg, s, s', t, vec, accepted, target);
    GrownOps(cfg, s, s', t, vec, accepted, target);
  }

  // ---------------------------------------------------------------- runs

  ghost predicate Invariant(cfg: Config, s: State) {
    Agreement(cfg, s) && WellFormed(s.cache, s.now)
  }

  lemma BeginKeeps(cfg: Config, s: State, t: nat, op: Op)
    requires Agreement(cfg, s) && Enabled(cfg, s, Begin(t, op))
    ensures Agreement(cfg, Step(cfg, s, Begin(t, op)))
  {
    QuietStep(cfg, s, Step(cfg, s, Begin(t, op)), t, Some(op));
  }

  lemma LockedKeepsAgreement(cfg: Config, s: State, t: nat)
    requires Invariant(cfg, s) && Enabled(cfg, s, Locked(t))
    ensures Agreement(cfg, Step(cfg, s, Locked(t)))
  {
    match s.ops[t]
    case PutReady(_) => AllocateKeeps(cfg, s, t);
    case PutInserted(_, _) => CommitKeepsAgreement(cfg, s, t);
    case GetFound(_, _, _) => AnswerKeeps(cfg, s, t);
    case ClearReady => ClearKeeps(cfg, s, t);
    case SweepReady => SweepStepKeeps(cfg, s, t);
  }

  lemma LockedKeepsBookkeeping(cfg: Config, s: State, t: nat)
    requires Invariant(cfg, s) && Enabled(cfg, s, Locked(t))
    ensures WellFormed(Step(cfg, s, Locked(t)).cache, s.now)
  {
    match s.ops[t]
    case PutReady(_) => MakeRoomKeeps(s.cache, cfg.limits, s.now);
    case PutInserted(put, id) =>
      CommitKeepsAgreement(cfg, s, t);
      CommitKeeps(s.cache, s.now, id, put);
    case GetFound(q, id, _) =>
      match Judge(s.cache, cfg.limits, s.now, q, id) {
        case Miss =>
        case Expired => ForgetKeeps(s.cache, {id}, s.now);
        case Hit(_, _) => TouchKeeps(s.cache, s.now, id);
      }
    case ClearReady =>
    case SweepReady => EvictExpiredKeeps(s.cache, cfg.limits, s.now);
  }

  lemma TickKeeps(cfg: Config, s: State, s': State)
    requires Agreement(cfg, s) && s'.cache == s.cache && s'.index == s.index && s'.ops == s.ops
    ensures Agreement(cfg, s')
  {
    FrameEntries(cfg, s, s');
    forall k <- s'.index, id <- s'.index[k] ensures HasOwner(cfg, s', id, k) {
      assert HasOwner(cfg, s, id, k);
      if !OwnedByEntry(cfg, s, id, k) {
        var u :| OwnedByOp(cfg, s, u, id, k);
        assert OwnedByOp(cfg, s', u, id, k);
      }
    }
    forall t <- s'.ops ensures OpOk(cfg, s', s'.ops[t]) {
      FrameOp(cfg, s, s', s.ops[t]);
    }
  }

  lemma StepKeepsAgreement(cfg: Config, s: State, a: Action)
    requires Invariant(cfg, s) && Enabled(cfg, s, a)
    ensures Agreement(cfg, Step(cfg, s, a))
  {
    match a
    case Tick(_) => TickKeeps(cfg, s, Step(cfg, s, a));
    case Begin(t, op) => BeginKeeps(cfg, s, t, op);
    case Locked(t) => LockedKeepsAgreement(cfg, s, t);
    case Search(t, found) => SearchKeeps(cfg, s, t, found);
    case RemoveVector(t, id) => RemoveVectorKeeps(cfg, s, t, id);
    case InsertVector(t, accepted) => InsertVectorKeeps(cfg, s, t, accepted);
  }

  lemma StepKeepsBookkeeping(cfg: Config, s: State, a: Action)
    requires Invariant(cfg, s) && Enabled(cfg, s, a)
    ensures WellFormed(Step(cfg, s, a).cache, Step(cfg, s, a).now)
  {
    if a.Locked? {
      LockedKeepsBookkeeping(cfg, s, a.t);
    }
  }
}
