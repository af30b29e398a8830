/** The cache over the index it is assembled with: the same steps as in `CacheRun`, but the
    partitions are vector indexes, and whether a vector is accepted is decided by them. */
module AssembledCache {
  import opened CacheRun
  import opened CacheTheorems
  import opened PartitionedIndex
  import opened PartitionedStore

  datatype Whole = Whole(state: State, parts: Parts)

  const START := Whole(INITIAL, map[])

  /** What the index makes of the vector that operation `t` inserts. */
  function Inserting(cfg: Config, geo: Geometry, w: Whole, op: Op): (Parts, bool)
    requires op.PutFlush?
  {
    InsertInto(geo, w.parts, cfg.maxPartitions, op.put.key, op.id, cfg.embed(op.put.prompt))
  }

  predicate MayStep(cfg: Config, geo: Geometry, w: Whole, a: Action) {
    && Enabled(cfg, w.state, a)
    && (a.InsertVector? ==> a.accepted == Inserting(cfg, geo, w, w.state.ops[a.t]).1)
  }

  function NextWhole(cfg: Config, geo: Geometry, w: Whole, a: Action): Whole
    requires Enabled(cfg, w.state, a)
  {
    var parts :=
      match a
      case RemoveVector(t, id) => RemoveFrom(w.parts, cfg.maxPartitions, Pending(w.state.ops[t])[id], id).0
      case InsertVector(t, _) => Inserting(cfg, geo, w, w.state.ops[t]).0
      case _ => w.parts;
    Whole(Step(cfg, w.state, a), parts)
  }

  ghost predicate IsWholeRun(cfg: Config, geo: Geometry, w: Whole, actions: seq<Action>)
    decreases |actions|
  {
    actions == [] ||
    (MayStep(cfg, geo, w, actions[0]) && IsWholeRun(cfg, geo, NextWhole(cfg, geo, w, actions[0]), actions[1..]))
  }

  ghost function WholeEnd(cfg: Config, geo: Geometry, w: Whole, actions: seq<Action>): Whole
    requires IsWholeRun(cfg, geo, w, actions)
    decreases |actions|
  {
    if actions == [] then w else WholeEnd(cfg, geo, NextWhole(cfg, geo, w, actions[0]), actions[1..])
  }

  /** A run of the assembled cache is a run of `CacheRun`, so whatever holds of those holds
      of it. */
  lemma {:induction false} WholeRunIsRun(cfg: Config, geo: Geometry, w: Whole, actions: seq<Action>)
    requires IsWholeRun(cfg, geo, w, actions)
    ensures IsRun(cfg, w.state, actions)
    ensures End(cfg, w.state, actions) == WholeEnd(cfg, geo, w, actions).state
    decreases |actions|
  {
    if actions != [] {
      WholeRunIsRun(cfg, geo, NextWhole(cfg, geo, w, actions[0]), actions[1..]);
    }
  }

  // ---------------------------------------------------------------- the two views agree

  /** The partitions are valid, hold what the cache model thinks they hold, and are not too
      many. */
  ghost predicate Linked(cfg: Config, geo: Geometry, w: Whole) {
    && AllValid(w.parts, geo.dim, geo.capacity)
    && ViewOf(w.parts) == w.state.index
    && WithinLimit(w.parts.Keys, cfg.maxPartitions)
  }

  ghost predicate Sound(cfg: Config, geo: Geometry, w: Whole) {
    Invariant(cfg, w.state) && Linked(cfg, geo, w)
  }

  lemma InsertLinks(cfg: Config, geo: Geometry, w: Whole, t: nat, accepted: bool)
    requires Linked(cfg, geo, w) && MayStep(cfg, geo, w, InsertVector(t, accepted))
    ensures Linked(cfg, geo, NextWhole(cfg, geo, w, InsertVector(t, accepted)))
  {
    var op := w.state.ops[t];
    InsertIntoIs(geo, w.parts, cfg.maxPartitions, op.put.key, op.id, cfg.embed(op.put.prompt));
    InsertKeepsLimit(w.parts.Keys, cfg.maxPartitions, op.put.key);
    InsertIntoKeys(geo, w.parts, cfg.maxPartitions, op.put.key, op.id, cfg.embed(op.put.prompt));
  }

  lemma RemoveLinks(cfg: Config, geo: Geometry, w: Whole, t: nat, id: Id)
    requires Linked(cfg, geo, w) && MayStep(cfg, geo, w, RemoveVector(t, id))
    ensures Linked(cfg, geo, NextWhole(cfg, geo, w, RemoveVector(t, id)))
  {
    RemoveFromIs(geo, w.parts, cfg.maxPartitions, Pending(w.state.ops[t])[id], id);
  }

  lemma StepKeepsSound(cfg: Config, geo: Geometry, w: Whole, a: Action)
    requires Sound(cfg, geo, w) && MayStep(cfg, geo, w, a)
    ensures Sound(cfg, geo, NextWhole(cfg, geo, w, a))
  {
    StepKeepsAgreement(cfg, w.state, a);
    StepKeepsBookkeeping(cfg, w.state, a);
    match a
    case InsertVector(t, accepted) => InsertLinks(cfg, geo, w, t, accepted);
    case RemoveVector(t, id) => RemoveLinks(cfg, geo, w, t, id);
    case _ =>
  }

  lemma StartIsSound(cfg: Config, geo: Geometry)
    ensures Sound(cfg, geo, START)
  {
    InitialInvariant(cfg);
    assert ViewOf(START.parts) == map[];
  }

  lemma {:induction false} RunKeepsSound(cfg: Config, geo: Geometry, w: Whole, actions: seq<Action>)
    requires Sound(cfg, geo, w) && IsWholeRun(cfg, geo, w, actions)
    ensures Sound(cfg, geo, WholeEnd(cfg, geo, w, actions))
    decreases |actions|
  {
    if actions != [] {
      StepKeepsSound(cfg, geo, w, actions[0]);
      RunKeepsSound(cfg, geo, NextWhole(cfg, geo, w, actions[0]), actions[1..]);
    }
  }
}
