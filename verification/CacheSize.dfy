/** The bound on the number of entries is exact: some run of the assembled cache reaches it,
    unless the slots of the index do not suffice. */
module CacheSize {
  import opened AssembledCache
  import opened CacheCapacity
  import opened CacheRun
  import opened CacheTheorems
  import opened Maps
  import opened PartitionedIndex
  import opened PartitionedStore
  import opened SemanticCache
  import VectorIndex

  /** A run from `w` to `e` with at most `k` puts in flight. */
  ghost predicate Via(cfg: Config, geo: Geometry, w: Whole, actions: seq<Action>, e: Whole, k: nat) {
    && IsWholeRun(cfg, geo, w, actions) && WholeEnd(cfg, geo, w, actions) == e
    && IsRun(cfg, w.state, actions) && AtMostPuts(cfg, w.state, actions, k)
  }

  ghost predicate Reaches(cfg: Config, geo: Geometry, w: Whole, e: Whole, k: nat) {
    exists actions :: Via(cfg, geo, w, actions, e, k)
  }

  lemma {:induction false} ViaThen(
    cfg: Config, geo: Geometry, w: Whole, a: seq<Action>, m: Whole, b: seq<Action>, e: Whole, k: nat)
    requires Via(cfg, geo, w, a, m, k) && Via(cfg, geo, m, b, e, k)
    ensures Via(cfg, geo, w, a + b, e, k)
    decreases |a|
  {
    if a == [] {
      assert a + b == b;
    } else {
      assert (a + b)[1..] == a[1..] + b;
      ViaThen(cfg, geo, NextWhole(cfg, geo, w, a[0]), a[1..], m, b, e, k);
    }
  }

  lemma ReachesThen(cfg: Config, geo: Geometry, w: Whole, m: Whole, e: Whole, k: nat)
    requires Reaches(cfg, geo, w, m, k) && Reaches(cfg, geo, m, e, k)
    ensures Reaches(cfg, geo, w, e, k)
  {
    var a :| Via(cfg, geo, w, a, m, k);
    var b :| Via(cfg, geo, m, b, e, k);
    ViaThen(cfg, geo, w, a, m, b, e, k);
  }

  lemma ReachesByStep(cfg: Config, geo: Geometry, w: Whole, a: Action, e: Whole, k: nat)
    requires MayStep(cfg, geo, w, a) && e == NextWhole(cfg, geo, w, a) && |w.state.ops| <= k && |e.state.ops| <= k
    ensures Reaches(cfg, geo, w, e, k)
  {
    FewPuts(w.state.ops);
    FewPuts(e.state.ops);
    var actions := [a];
    assert actions[1..] == [];
    ReachesItself(cfg, geo, e, k);
    assert IsRun(cfg, w.state, actions) && AtMostPuts(cfg, w.state, actions, k);
    assert Via(cfg, geo, w, actions, e, k);
  }

  lemma ReachesItself(cfg: Config, geo: Geometry, w: Whole, k: nat)
    requires |w.state.ops| <= k
    ensures Via(cfg, geo, w, [], w, k) && Reaches(cfg, geo, w, w, k)
  {
    FewPuts(w.state.ops);
    assert Via(cfg, geo, w, [], w, k);
  }

  lemma FewPuts(ops: map<nat, Op>)
    ensures |Puts(ops)| <= |ops|
  {
    SubsetSize(Puts(ops), ops.Keys);
    SizeOfKeys(ops);
  }

  // ---------------------------------------------------------------- filling partition after partition

  /** The key of the puts that fill the `i`-th partition. */
  function Name(i: nat): Key {
    seq(i + 1, _ => 'p')
  }

  /** Where they end up. */
  function Target(maxPartitions: nat, i: nat): Key {
    if i < maxPartitions then Name(i) else OVERFLOW
  }

  function Targets(maxPartitions: nat, n: nat): set<Key> {
    if n == 0 then {} else Targets(maxPartitions, n - 1) + {Target(maxPartitions, n - 1)}
  }

  lemma NamesDiffer(i: nat, j: nat)
    ensures Name(i) != OVERFLOW && Name(i) != "" && (i != j ==> Name(i) != Name(j))
  {
    assert |Name(i)| == i + 1 && |Name(j)| == j + 1;
    assert Name(i)[0] == 'p' && OVERFLOW[0] == '_';
  }

  lemma {:induction false} NotYet(maxPartitions: nat, i: nat, n: nat)
    requires n <= i
    ensures Name(i) !in Targets(maxPartitions, n)
    ensures i <= maxPartitions ==> Target(maxPartitions, i) !in Targets(maxPartitions, n)
    decreases n
  {
    if n > 0 {
      NotYet(maxPartitions, i, n - 1);
      NamesDiffer(i, n - 1);
      NamesDiffer(n - 1, i);
    }
  }

  lemma {:induction false} TargetsCount(maxPartitions: nat, n: nat)
    requires n <= maxPartitions + 1
    ensures |Targets(maxPartitions, n)| == n
    decreases n
  {
    if n > 0 {
      TargetsCount(maxPartitions, n - 1);
      NotYet(maxPartitions, n - 1, n - 1);
    }
  }

  /** A put under the `i`-th name goes to the `i`-th partition, whether it is there yet or
      not. */
  lemma GoesToTarget(maxPartitions: nat, i: nat, n: nat)
    requires i <= maxPartitions && i <= n <= i + 1
    ensures InsertTarget(Targets(maxPartitions, n), maxPartitions, Name(i)) == Target(maxPartitions, i)
  {
    NamesDiffer(i, i);
    TargetsCount(maxPartitions, n);
    NotYet(maxPartitions, i, i);
  }

  /** The next free slot: its partition, how many slots of that are used, and the
      partitions there are. */
  datatype Slot = Slot(part: nat, below: nat, keys: set<Key>)

  function After(maxPartitions: nat, capacity: nat, slot: Slot): Slot {
    var keys := slot.keys + {Target(maxPartitions, slot.part)};
    if slot.below + 1 == capacity then Slot(slot.part + 1, 0, keys) else Slot(slot.part, slot.below + 1, keys)
  }

  /** The next free slot once `used` vectors fill the partitions one after the other. */
  function NextSlot(maxPartitions: nat, capacity: nat, used: nat): Slot {
    if used == 0 then Slot(0, 0, {}) else After(maxPartitions, capacity, NextSlot(maxPartitions, capacity, used - 1))
  }

  lemma AfterIsExact(maxPartitions: nat, capacity: nat, used: nat, slot: Slot)
    requires slot.below < capacity && used == slot.part * capacity + slot.below
    ensures var next := After(maxPartitions, capacity, slot);
            next.below < capacity && used + 1 == next.part * capacity + next.below
  {
    assert (slot.part + 1) * capacity == slot.part * capacity + capacity;
  }

  lemma {:induction false} SlotIsExact(maxPartitions: nat, capacity: nat, used: nat)
    requires capacity >= 1
    ensures var slot := NextSlot(maxPartitions, capacity, used);
            slot.below < capacity && used == slot.part * capacity + slot.below
    decreases used
  {
    if used > 0 {
      SlotIsExact(maxPartitions, capacity, used - 1);
      AfterIsExact(maxPartitions, capacity, used - 1, NextSlot(maxPartitions, capacity, used - 1));
    }
  }

  lemma {:induction false} SlotKeys(maxPartitions: nat, capacity: nat, used: nat)
    ensures var slot := NextSlot(maxPartitions, capacity, used);
            slot.keys == Targets(maxPartitions, slot.part + if slot.below == 0 then 0 else 1)
    decreases used
  {
    if used > 0 {
      SlotKeys(maxPartitions, capacity, used - 1);
    }
  }

  /** An insert under the name of the slot's partition is routed to it. */
  ghost predicate IsFree(maxPartitions: nat, capacity: nat, slot: Slot) {
    var target := Target(maxPartitions, slot.part);
    && slot.below < capacity
    && InsertTarget(slot.keys, maxPartitions, Name(slot.part)) == target
    && (slot.below == 0 ==> target !in slot.keys)
  }

  lemma SlotIsFree(maxPartitions: nat, capacity: nat, used: nat)
    requires capacity >= 1 && used < (maxPartitions + 1) * capacity
    ensures IsFree(maxPartitions, capacity, NextSlot(maxPartitions, capacity, used))
  {
    var slot := NextSlot(maxPartitions, capacity, used);
    SlotIsExact(maxPartitions, capacity, used);
    SlotKeys(maxPartitions, capacity, used);
    PartitionIsLeft(used, capacity, maxPartitions, slot.part);
    GoesToTarget(maxPartitions, slot.part, slot.part + if slot.below == 0 then 0 else 1);
    NotYet(maxPartitions, slot.part, slot.part);
  }

  lemma PartitionIsLeft(used: nat, capacity: nat, maxPartitions: nat, part: nat)
    requires part * capacity <= used < (maxPartitions + 1) * capacity
    ensures part <= maxPartitions
  {
    if part > maxPartitions {
      MulMonotone(maxPartitions + 1, part, capacity);
      assert false;
    }
  }

  ghost predicate Layout(maxPartitions: nat, p: Parts, slot: Slot) {
    p.Keys == slot.keys && (slot.below > 0 ==> Occupied(p, Target(maxPartitions, slot.part), slot.below))
  }

  ghost predicate Occupied(p: Parts, key: Key, n: nat) {
    key in p && |p[key].points| == n && p[key].freed == 0
  }

  lemma SlotTaken(ix: VectorIndex.Index, id: Id, vec: Vec)
    requires VectorIndex.Valid(ix) && ix.freed == 0 && |ix.points| < ix.maxElements
    requires |vec| == ix.dim && id !in VectorIndex.Vectors(ix)
    ensures var (after, ok) := VectorIndex.Insert(ix, id, vec);
            ok && |after.points| == |ix.points| + 1 && after.freed == 0
  {
    VectorIndex.EveryIdHasAVector(ix);
    assert ix.nextLabel !in ix.points;
    OneMore(ix.points, ix.nextLabel, vec);
  }

  /** The partition of the next free slot. */
  lemma NextPart(maxPartitions: nat, geo: Geometry, p: Parts, slot: Slot)
    requires AllValid(p, geo.dim, geo.capacity)
    requires Layout(maxPartitions, p, slot) && IsFree(maxPartitions, geo.capacity, slot)
    ensures var part := PartAt(geo, p, Target(maxPartitions, slot.part));
            ValidPart(part, geo.dim, geo.capacity) && |part.points| == slot.below && part.freed == 0
  {
    PartIsValid(geo, p, Target(maxPartitions, slot.part));
  }

  lemma LayoutAfter(maxPartitions: nat, p: Parts, slot: Slot, capacity: nat, after: VectorIndex.Index)
    requires Layout(maxPartitions, p, slot) && |after.points| == slot.below + 1 && after.freed == 0
    ensures Layout(maxPartitions, p[Target(maxPartitions, slot.part) := after], After(maxPartitions, capacity, slot))
  {
  }

  /** An insert under the name of the next free slot takes it. */
  lemma LayoutGrows(maxPartitions: nat, geo: Geometry, p: Parts, slot: Slot, id: Id, vec: Vec)
    requires AllValid(p, geo.dim, geo.capacity)
    requires Layout(maxPartitions, p, slot) && IsFree(maxPartitions, geo.capacity, slot)
    requires |vec| == geo.dim && id !in VectorIndex.Vectors(PartAt(geo, p, Target(maxPartitions, slot.part)))
    ensures var (after, ok) := InsertInto(geo, p, maxPartitions, Name(slot.part), id, vec);
            ok && Layout(maxPartitions, after, After(maxPartitions, geo.capacity, slot))
  {
    var part := PartAt(geo, p, Target(maxPartitions, slot.part));
    NextPart(maxPartitions, geo, p, slot);
    SlotTaken(part, id, vec);
    LayoutAfter(maxPartitions, p, slot, geo.capacity, VectorIndex.Insert(part, id, vec).0);
  }

  // ---------------------------------------------------------------- puts

  /** `n` entries, none of them older than now, and `j` puts, numbered below `b`, about to
      commit. */
  ghost predicate Ready(s: State, n: nat, j: nat, b: nat) {
    && (forall id <- s.cache.entries :: s.cache.entries[id].createdAt == s.now)
    && |s.cache.entries| == n
    && |s.ops| == j
    && (forall t <- s.ops :: t < b && s.ops[t].PutInserted?)
  }

  /** Such a state with the vectors laid out up to `slot`, reached with at most `k` puts in
      flight. */
  ghost predicate Holding(cfg: Config, geo: Geometry, w: Whole, n: nat, j: nat, b: nat, slot: Slot, k: nat) {
    Reaches(cfg, geo, START, w, k) && Ready(w.state, n, j, b) && Layout(cfg.maxPartitions, w.parts, slot)
  }

  lemma ReachedIsSound(cfg: Config, geo: Geometry, w: Whole, k: nat)
    requires Reaches(cfg, geo, START, w, k)
    ensures Sound(cfg, geo, w)
  {
    var actions :| Via(cfg, geo, START, actions, w, k);
    StartIsSound(cfg, geo);
    RunKeepsSound(cfg, geo, START, actions);
  }

  /** With room and nothing stale, phase 1 removes nothing. */
  lemma AllocateIsQuiet(c: Cache, l: Limits, now: int)
    requires |c.entries| < l.maxEntries && l.ttl >= 0 && forall id <- c.entries :: c.entries[id].createdAt == now
    ensures Allocate(c, l, now).removals == map[] && Allocate(c, l, now).cache.entries == c.entries
    ensures Allocate(c, l, now).cache.seqNo == c.seqNo + 1
  {
    var counted := c.(puts := c.puts + 1);
    assert StaleIds(counted, l, now) == {};
    assert KeysOf(counted, {}) == map[];
    assert counted.entries - {} == counted.entries;
  }

  /** A put of operation `t` up to the insertion of its vector, in a cache with room. */
  lemma StartShape(cfg: Config, s: State, t: nat, put: Put)
    requires |s.cache.entries| < cfg.limits.maxEntries && cfg.limits.ttl >= 0 && put.key != "" && t !in s.ops
    requires forall id <- s.cache.entries :: s.cache.entries[id].createdAt == s.now
    ensures var begun := Step(cfg, s, Begin(t, PutReady(put)));
            && begun.ops == s.ops[t := PutReady(put)] && begun.index == s.index
            && var taken, id := Step(cfg, begun, Locked(t)), EntryId(cfg.modelHash(put.model), s.cache.seqNo);
               && taken.ops == s.ops[t := PutFlush(put, id, map[])] && taken.index == s.index
               && taken.cache.entries == s.cache.entries && taken.cache.seqNo == s.cache.seqNo + 1 && taken.now == s.now
  {
    AllocateIsQuiet(s.cache, cfg.limits, s.now);
  }

  lemma InsertShape(cfg: Config, s: State, t: nat, accepted: bool)
    requires t in s.ops && s.ops[t].PutFlush? && s.ops[t].removals == map[]
    ensures Enabled(cfg, s, InsertVector(t, accepted))
    ensures var e := Step(cfg, s, InsertVector(t, accepted));
            && (accepted ==> e.ops == s.ops[t := PutInserted(s.ops[t].put, s.ops[t].id)])
            && e.cache == s.cache && e.now == s.now
  {
  }

  /** The vector of a put that is ready to insert it finds a slot. */
  lemma InsertIsAccepted(cfg: Config, geo: Geometry, w: Whole, op: Op, slot: Slot)
    requires Linked(cfg, geo, w) && op.PutFlush? && Unused(w.state, op.id)
    requires Layout(cfg.maxPartitions, w.parts, slot) && IsFree(cfg.maxPartitions, geo.capacity, slot)
    requires op.put.key == Name(slot.part) && |cfg.embed(op.put.prompt)| == geo.dim
    ensures var (after, ok) := Inserting(cfg, geo, w, op);
            ok && Layout(cfg.maxPartitions, after, After(cfg.maxPartitions, geo.capacity, slot))
  {
    var target := Target(cfg.maxPartitions, slot.part);
    PartIsValid(geo, w.parts, target);
    assert target in w.parts ==> op.id !in w.state.index[target];
    LayoutGrows(cfg.maxPartitions, geo, w.parts, slot, op.id, cfg.embed(op.put.prompt));
  }

  /** The whole cache after `Begin` and the first phase of a put. */
  lemma TakePut(cfg: Config, geo: Geometry, w: Whole, n: nat, j: nat, b: nat, put: Put, k: nat) returns (taken: Whole)
    requires Ready(w.state, n, j, b)
    requires n < cfg.limits.maxEntries && cfg.limits.ttl >= 0 && put.key != "" && j < k
    ensures Reaches(cfg, geo, w, taken, k) && taken.parts == w.parts
    ensures b !in w.state.ops && b in taken.state.ops
    ensures var id := EntryId(cfg.modelHash(put.model), w.state.cache.seqNo);
            taken.state.ops == w.state.ops[b := PutFlush(put, id, map[])]
    ensures taken.state.cache.entries == w.state.cache.entries && taken.state.now == w.state.now
    ensures taken.state.index == w.state.index && taken.state.cache.seqNo == w.state.cache.seqNo + 1
  {
    var begin := Begin(b, PutReady(put));
    var begun := NextWhole(cfg, geo, w, begin);
    StartShape(cfg, w.state, b, put);
    taken := NextWhole(cfg, geo, begun, Locked(b));
    OneMore(w.state.ops, b, begun.state.ops[b]);
    OneMore(w.state.ops, b, taken.state.ops[b]);
    ReachesByStep(cfg, geo, w, begin, begun, k);
    ReachesByStep(cfg, geo, begun, Locked(b), taken, k);
    ReachesThen(cfg, geo, w, begun, taken, k);
  }

  /** What the invariant says of a put that is ready to insert its vector. */
  lemma TakenIsUnused(cfg: Config, geo: Geometry, w: Whole, b: nat, k: nat)
    requires Reaches(cfg, geo, START, w, k) && b in w.state.ops && w.state.ops[b].PutFlush?
    ensures Linked(cfg, geo, w) && Unused(w.state, w.state.ops[b].id)
  {
    ReachedIsSound(cfg, geo, w, k);
    FlushIsUnused(cfg, w.state, b);
  }

  lemma InsertPut(cfg: Config, geo: Geometry, w: Whole, b: nat, slot: Slot, k: nat) returns (e: Whole)
    requires Reaches(cfg, geo, START, w, k)
    requires b in w.state.ops && w.state.ops[b].PutFlush? && w.state.ops[b].removals == map[]
    requires Layout(cfg.maxPartitions, w.parts, slot) && IsFree(cfg.maxPartitions, geo.capacity, slot)
    requires w.state.ops[b].put.key == Name(slot.part) && |cfg.embed(w.state.ops[b].put.prompt)| == geo.dim
    requires |w.state.ops| <= k
    ensures Reaches(cfg, geo, START, e, k)
    ensures Layout(cfg.maxPartitions, e.parts, After(cfg.maxPartitions, geo.capacity, slot))
    ensures e.state.ops == w.state.ops[b := PutInserted(w.state.ops[b].put, w.state.ops[b].id)]
    ensures e.state.cache.entries == w.state.cache.entries && e.state.now == w.state.now
  {
    TakenIsUnused(cfg, geo, w, b, k);
    InsertIsAccepted(cfg, geo, w, w.state.ops[b], slot);
    InsertShape(cfg, w.state, b, true);
    e := NextWhole(cfg, geo, w, InsertVector(b, true));
    SameSize(w.state.ops, b, e.state.ops[b]);
    ReachesByStep(cfg, geo, w, InsertVector(b, true), e, k);
    ReachesThen(cfg, geo, START, w, e, k);
  }

  lemma StillReady(s: State, n: nat, j: nat, b: nat, e: State, op: Op)
    requires Ready(s, n, j, b) && op.PutInserted? && b !in s.ops && e.ops == s.ops[b := op]
    requires e.cache.entries == s.cache.entries && e.now == s.now
    ensures Ready(e, n, j + 1, b + 1)
  {
    OneMore(s.ops, b, op);
  }

  /** One more put gets as far as having its vector stored. */
  lemma StartPut(cfg: Config, geo: Geometry, w: Whole, n: nat, j: nat, b: nat, slot: Slot, prompt: string, k: nat)
    returns (e: Whole)
    requires Holding(cfg, geo, w, n, j, b, slot, k) && n < cfg.limits.maxEntries && cfg.limits.ttl >= 0 && j < k
    requires IsFree(cfg.maxPartitions, geo.capacity, slot) && |cfg.embed(prompt)| == geo.dim
    ensures Holding(cfg, geo, e, n, j + 1, b + 1, After(cfg.maxPartitions, geo.capacity, slot), k)
  {
    var taken := TakePut(cfg, geo, w, n, j, b, Put(prompt, "", "", Name(slot.part)), k);
    ReachesThen(cfg, geo, START, w, taken, k);
    OneMore(w.state.ops, b, taken.state.ops[b]);
    e := InsertPut(cfg, geo, taken, b, slot, k);
    UpdatedTwice(w.state.ops, b, taken.state.ops[b], e.state.ops[b]);
    StillReady(w.state, n, j, b, e.state, e.state.ops[b]);
  }

  lemma CommitShape(cfg: Config, s: State, t: nat)
    requires t in s.ops && s.ops[t].PutInserted?
    ensures var e := Step(cfg, s, Locked(t));
            && e.cache.entries == s.cache.entries[s.ops[t].id := Entry(s.ops[t].put, s.now, s.now)]
            && e.ops == s.ops - {t} && e.now == s.now && e.index == s.index && e.cache.seqNo == s.cache.seqNo
  {
  }

  lemma FinishShape(cfg: Config, s: State, n: nat, j: nat, b: nat, t: nat, e: State)
    requires Ready(s, n, j, b) && t in s.ops && s.ops[t].PutInserted? && s.ops[t].id !in s.cache.entries
    requires e == Step(cfg, s, Locked(t))
    ensures j > 0 && Ready(e, n + 1, j - 1, b)
  {
    CommitShape(cfg, s, t);
    OneLess(s.ops, t);
    OneMore(s.cache.entries, s.ops[t].id, Entry(s.ops[t].put, s.now, s.now));
  }

  lemma CommittedIsNew(cfg: Config, geo: Geometry, w: Whole, t: nat, k: nat)
    requires Reaches(cfg, geo, START, w, k) && t in w.state.ops && w.state.ops[t].PutInserted?
    ensures w.state.ops[t].id !in w.state.cache.entries
  {
    ReachedIsSound(cfg, geo, w, k);
    assert OpOk(cfg, w.state, w.state.ops[t]) && w.state.ops[t].id in Owned(w.state.ops[t]);
  }

  lemma FinishPut(cfg: Config, geo: Geometry, w: Whole, n: nat, j: nat, b: nat, slot: Slot, k: nat) returns (e: Whole)
    requires Holding(cfg, geo, w, n, j, b, slot, k) && 0 < j <= k
    ensures Holding(cfg, geo, e, n + 1, j - 1, b, slot, k)
  {
    var t :| t in w.state.ops;
    e := NextWhole(cfg, geo, w, Locked(t));
    CommittedIsNew(cfg, geo, w, t, k);
    FinishShape(cfg, w.state, n, j, b, t, e.state);
    ReachesByStep(cfg, geo, w, Locked(t), e, k);
    ReachesThen(cfg, geo, START, w, e, k);
  }

  /** What the construction needs throughout: time, the right dimension, and slots. */
  ghost predicate CanGoOn(cfg: Config, geo: Geometry, prompt: string, slots: nat) {
    && cfg.limits.ttl >= 0 && |cfg.embed(prompt)| == geo.dim
    && geo.capacity >= 1 && slots == (cfg.maxPartitions + 1) * geo.capacity
  }

  /** Some reachable state has `n` entries, `j` puts about to commit and `used` vectors. */
  ghost predicate CanHold(cfg: Config, geo: Geometry, n: nat, j: nat, used: nat, k: nat) {
    exists w, b: nat :: Holding(cfg, geo, w, n, j, b, NextSlot(cfg.maxPartitions, geo.capacity, used), k)
  }

  lemma CanStart(cfg: Config, geo: Geometry, n: nat, j: nat, used: nat, prompt: string, slots: nat, k: nat)
    requires CanHold(cfg, geo, n, j, used, k) && CanGoOn(cfg, geo, prompt, slots)
    requires used < slots && n < cfg.limits.maxEntries && j < k
    ensures CanHold(cfg, geo, n, j + 1, used + 1, k)
  {
    var slot := NextSlot(cfg.maxPartitions, geo.capacity, used);
    var w, b: nat :| Holding(cfg, geo, w, n, j, b, slot, k);
    SlotIsFree(cfg.maxPartitions, geo.capacity, used);
    var e := StartPut(cfg, geo, w, n, j, b, slot, prompt, k);
    assert Holding(cfg, geo, e, n, j + 1, b + 1, NextSlot(cfg.maxPartitions, geo.capacity, used + 1), k);
  }

  lemma CanFinish(cfg: Config, geo: Geometry, n: nat, j: nat, used: nat, k: nat)
    requires CanHold(cfg, geo, n, j, used, k) && 0 < j <= k
    ensures CanHold(cfg, geo, n + 1, j - 1, used, k)
  {
    var slot := NextSlot(cfg.maxPartitions, geo.capacity, used);
    var w, b: nat :| Holding(cfg, geo, w, n, j, b, slot, k);
    var e := FinishPut(cfg, geo, w, n, j, b, slot, k);
  }

  lemma CanBegin(cfg: Config, geo: Geometry, k: nat)
    ensures CanHold(cfg, geo, 0, 0, 0, k)
  {
    ReachesItself(cfg, geo, START, k);
    assert Holding(cfg, geo, START, 0, 0, 0, NextSlot(cfg.maxPartitions, geo.capacity, 0), k);
  }

  lemma HeldEntries(cfg: Config, geo: Geometry, n: nat, used: nat, k: nat)
    requires CanHold(cfg, geo, n, 0, used, k)
    ensures exists e :: Reaches(cfg, geo, START, e, k) && |e.state.cache.entries| == n
  {
    var e, b: nat :| Holding(cfg, geo, e, n, 0, b, NextSlot(cfg.maxPartitions, geo.capacity, used), k);
  }

  // ---------------------------------------------------------------- counting

  /** What can be held, as a relation between entries, puts in flight and used slots. */
  type Counts = (nat, nat, nat) -> bool

  ghost predicate Starts(can: Counts, limit: nat, slots: nat, k: nat, n: nat, j: nat, used: nat) {
    can(n, j, used) && n < limit && j < k && used < slots ==> can(n, j + 1, used + 1)
  }

  ghost predicate Finishes(can: Counts, k: nat, n: nat, j: nat, used: nat) {
    can(n, j, used) && 0 < j <= k ==> can(n + 1, j - 1, used)
  }

  ghost predicate Moves(can: Counts, limit: nat, slots: nat, k: nat) {
    && (forall n: nat, j: nat, used: nat :: Starts(can, limit, slots, k, n, j, used))
    && (forall n: nat, j: nat, used: nat :: Finishes(can, k, n, j, used))
  }

  lemma {:induction false} FillUp(can: Counts, limit: nat, slots: nat, k: nat, n: nat)
    requires Moves(can, limit, slots, k) && can(0, 0, 0) && n < limit && n <= slots && k >= 1
    ensures can(n, 0, n)
    decreases n
  {
    if n > 0 {
      FillUp(can, limit, slots, k, n - 1);
      assert Starts(can, limit, slots, k, n - 1, 0, n - 1);
      assert Finishes(can, k, n - 1, 1, n);
    }
  }

  lemma {:induction false} StartAll(can: Counts, limit: nat, slots: nat, k: nat, n: nat, j: nat)
    requires Moves(can, limit, slots, k) && can(n, 0, n) && n < limit && n + j <= slots && j <= k
    ensures can(n, j, n + j)
    decreases j
  {
    if j > 0 {
      StartAll(can, limit, slots, k, n, j - 1);
      assert Starts(can, limit, slots, k, n, j - 1, n + j - 1);
    }
  }

  lemma {:induction false} FinishAll(can: Counts, limit: nat, slots: nat, k: nat, n: nat, j: nat, used: nat)
    requires Moves(can, limit, slots, k) && can(n, j, used) && j <= k
    ensures can(n + j, 0, used)
    decreases j
  {
    if j > 0 {
      assert Finishes(can, k, n, j, used);
      FinishAll(can, limit, slots, k, n + 1, j - 1, used);
    }
  }

  /** Up to one below the limit one by one, then `k` puts through phase 1 before any of them
      commits. */
  lemma AllTogether(can: Counts, limit: nat, slots: nat, k: nat)
    requires Moves(can, limit, slots, k) && can(0, 0, 0) && limit >= 1 && k >= 1 && limit + k - 1 <= slots
    ensures can(limit + k - 1, 0, limit + k - 1)
  {
    FillUp(can, limit, slots, k, limit - 1);
    StartAll(can, limit, slots, k, limit - 1, k);
    FinishAll(can, limit, slots, k, limit - 1, k, limit + k - 1);
  }

  ghost function Holds(cfg: Config, geo: Geometry, k: nat): Counts {
    (n: nat, j: nat, used: nat) => CanHold(cfg, geo, n, j, used, k)
  }

  lemma HoldsStarts(cfg: Config, geo: Geometry, prompt: string, slots: nat, k: nat, n: nat, j: nat, used: nat)
    requires CanGoOn(cfg, geo, prompt, slots)
    ensures Starts(Holds(cfg, geo, k), cfg.limits.maxEntries, slots, k, n, j, used)
  {
    if CanHold(cfg, geo, n, j, used, k) && n < cfg.limits.maxEntries && j < k && used < slots {
      CanStart(cfg, geo, n, j, used, prompt, slots, k);
    }
  }

  lemma HoldsFinishes(cfg: Config, geo: Geometry, k: nat, n: nat, j: nat, used: nat)
    ensures Finishes(Holds(cfg, geo, k), k, n, j, used)
  {
    if CanHold(cfg, geo, n, j, used, k) && 0 < j <= k {
      CanFinish(cfg, geo, n, j, used, k);
    }
  }

  lemma HoldsMoves(cfg: Config, geo: Geometry, prompt: string, slots: nat, k: nat)
    requires CanGoOn(cfg, geo, prompt, slots)
    ensures Moves(Holds(cfg, geo, k), cfg.limits.maxEntries, slots, k)
  {
    forall n: nat, j: nat, used: nat ensures Starts(Holds(cfg, geo, k), cfg.limits.maxEntries, slots, k, n, j, used) {
      HoldsStarts(cfg, geo, prompt, slots, k, n, j, used);
    }
    forall n: nat, j: nat, used: nat ensures Finishes(Holds(cfg, geo, k), k, n, j, used) {
      HoldsFinishes(cfg, geo, k, n, j, used);
    }
  }

  lemma BoundIsReached(cfg: Config, geo: Geometry, prompt: string, slots: nat, k: nat)
    requires k >= 1 && cfg.limits.maxEntries >= 1
    requires CanGoOn(cfg, geo, prompt, slots) && cfg.limits.maxEntries + k - 1 <= slots
    ensures exists e :: Reaches(cfg, geo, START, e, k) && |e.state.cache.entries| == cfg.limits.maxEntries + k - 1
  {
    HoldsMoves(cfg, geo, prompt, slots, k);
    CanBegin(cfg, geo, k);
    AllTogether(Holds(cfg, geo, k), cfg.limits.maxEntries, slots, k);
    HeldEntries(cfg, geo, cfg.limits.maxEntries + k - 1, cfg.limits.maxEntries + k - 1, k);
  }

  lemma ReachedFits(cfg: Config, geo: Geometry, e: Whole, k: nat)
    requires Reaches(cfg, geo, START, e, k)
    ensures |e.state.cache.entries| <= (cfg.maxPartitions + 1) * geo.capacity
  {
    var actions :| Via(cfg, geo, START, actions, e, k);
    SlotsBoundEntries(cfg, geo, actions);
  }

  /** With at most `k` puts in flight some run ends with `max_entries + k - 1` entries, the
      most that `SizeIsBounded` allows, if and only if all partitions together have that many
      slots. */
  lemma SizeBoundIsReachedIff(cfg: Config, geo: Geometry, prompt: string, k: nat)
    requires k >= 1 && cfg.limits.maxEntries >= 1 && cfg.limits.ttl >= 0 && |cfg.embed(prompt)| == geo.dim
    ensures (exists e :: Reaches(cfg, geo, START, e, k) && |e.state.cache.entries| == cfg.limits.maxEntries + k - 1)
            <==> cfg.limits.maxEntries + k - 1 <= (cfg.maxPartitions + 1) * geo.capacity
  {
    if cfg.limits.maxEntries + k - 1 <= (cfg.maxPartitions + 1) * geo.capacity {
      assert geo.capacity == 0 ==> (cfg.maxPartitions + 1) * geo.capacity == 0;
      BoundIsReached(cfg, geo, prompt, (cfg.maxPartitions + 1) * geo.capacity, k);
    }
    forall e | Reaches(cfg, geo, START, e, k)
      ensures |e.state.cache.entries| <= (cfg.maxPartitions + 1) * geo.capacity
    {
      ReachedFits(cfg, geo, e, k);
    }
  }
}
