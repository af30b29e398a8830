/** When a request is answered from the cache. The search of `get` asks for one result only,
    so it sees nothing but the nearest vector of the physical partition; the graph search
    is taken to be exact. */
module CacheSearch {
  import opened CacheHits
  import opened CacheRun
  import opened CacheTheorems
  import opened Maps
  import opened PartitionedIndex
  import opened SemanticCache
  import opened Wrappers

  /** An entry that a request may be answered with. */
  predicate Suits(cfg: Config, s: State, q: Query, id: Id) {
    && id in s.cache.entries
    && var e := s.cache.entries[id];
       && e.put.key == q.key
       && s.now - e.createdAt <= cfg.limits.ttl
       && Compatible(q.model, e.put.model)
       && (cfg.threshold > 0.0 ==> cfg.score(cfg.embed(q.prompt), cfg.embed(e.put.prompt)) >= cfg.threshold)
  }

  /** The nearest of the vectors that `q` can see, provided it is near enough. */
  ghost predicate Nearest(cfg: Config, index: Partitions, q: Query, found: Option<Id>) {
    var visible := Lookup(index, cfg.maxPartitions, q.key);
    match found
    case Some(id) => MayFind(cfg, index, q, id) && IsNearest(cfg, visible, q, id)
    case None => forall id <- visible :: !MayFind(cfg, index, q, id)
  }

  ghost predicate IsNearest(cfg: Config, visible: map<Id, Vec>, q: Query, id: Id)
    requires id in visible
  {
    forall other <- visible :: cfg.score(cfg.embed(q.prompt), visible[other]) <= cfg.score(cfg.embed(q.prompt), visible[id])
  }

  /** There always is a nearest one. */
  lemma {:induction false} HasNearest(cfg: Config, visible: map<Id, Vec>, q: Query) returns (id: Id)
    requires visible != map[]
    ensures id in visible && IsNearest(cfg, visible, q, id)
    decreases |visible|
  {
    var some :| some in visible;
    var rest := visible - {some};
    id := some;
    if rest != map[] {
      OneLess(visible, some);
      var best := HasNearest(cfg, rest, q);
      if cfg.score(cfg.embed(q.prompt), visible[best]) >= cfg.score(cfg.embed(q.prompt), visible[some]) {
        id := best;
      }
      forall other <- visible
        ensures cfg.score(cfg.embed(q.prompt), visible[other]) <= cfg.score(cfg.embed(q.prompt), visible[id])
      {
        assert other == some || other in rest;
      }
    } else {
      forall other <- visible ensures other == some {
        assert other == some || other in rest;
      }
    }
  }

  lemma SearchHasAResult(cfg: Config, index: Partitions, q: Query)
    ensures exists found :: Nearest(cfg, index, q, found)
  {
    var visible := Lookup(index, cfg.maxPartitions, q.key);
    if forall id <- visible :: !MayFind(cfg, index, q, id) {
      assert Nearest(cfg, index, q, None);
    } else {
      var id := HasNearest(cfg, visible, q);
      assert Nearest(cfg, index, q, Some(id));
    }
  }

  // ---------------------------------------------------------------- when a request is served

  predicate Concerns(a: Action, t: nat) {
    !a.Tick? && a.t == t
  }

  lemma OthersKeepOp(cfg: Config, s: State, a: Action, t: nat)
    requires Enabled(cfg, s, a) && !Concerns(a, t)
    ensures t in Step(cfg, s, a).ops <==> t in s.ops
    ensures t in s.ops ==> Step(cfg, s, a).ops[t] == s.ops[t]
  {
  }

  lemma {:induction false} RunKeepsOp(cfg: Config, s: State, actions: seq<Action>, t: nat)
    requires IsRun(cfg, s, actions) && forall a <- actions :: !Concerns(a, t)
    ensures t in End(cfg, s, actions).ops <==> t in s.ops
    ensures t in s.ops ==> End(cfg, s, actions).ops[t] == s.ops[t]
    decreases |actions|
  {
    if actions != [] {
      OthersKeepOp(cfg, s, actions[0], t);
      RunKeepsOp(cfg, Step(cfg, s, actions[0]), actions[1..], t);
    }
  }

  /** A found entry that is still there is as similar as the search saw it. */
  lemma FoundStaysSimilar(cfg: Config, s: State, t: nat)
    requires EntriesPlaced(cfg, s) && OpsOk(cfg, s) && Embedded(cfg, s)
    requires t in s.ops && s.ops[t].GetFound? && s.ops[t].id in s.cache.entries
    ensures var op := s.ops[t];
            var score := cfg.score(cfg.embed(op.q.prompt), cfg.embed(s.cache.entries[op.id].put.prompt));
            cfg.threshold > 0.0 ==> score >= cfg.threshold
  {
    var op := s.ops[t];
    assert OpOk(cfg, s, op) && FoundSimilar(cfg, op);
    assert Placed(cfg, s.index, op.id, s.cache.entries[op.id].put.key);
  }

  lemma JudgedHit(cfg: Config, s: State, t: nat)
    requires EntriesPlaced(cfg, s) && OpsOk(cfg, s) && Embedded(cfg, s) && t in s.ops && s.ops[t].GetFound?
    ensures Judge(s.cache, cfg.limits, s.now, s.ops[t].q, s.ops[t].id).Hit? <==> Suits(cfg, s, s.ops[t].q, s.ops[t].id)
  {
    if s.ops[t].id in s.cache.entries {
      FoundStaysSimilar(cfg, s, t);
    }
  }

  /** The request of `t` is answered with entry `id` when it takes the lock. */
  ghost predicate IsServed(cfg: Config, s: State, t: nat, q: Query, id: Id) {
    && Enabled(cfg, s, Locked(t)) && id in s.cache.entries
    && Step(cfg, s, Locked(t)).log == s.log + [Served(q, id, s.cache.entries[id].put.response, s.now)]
  }

  lemma AnswerLogs(cfg: Config, s: State, t: nat, id: Id)
    requires t in s.ops && s.ops[t].GetFound?
    ensures IsServed(cfg, s, t, s.ops[t].q, id)
            <==> id == s.ops[t].id && Judge(s.cache, cfg.limits, s.now, s.ops[t].q, id).Hit?
  {
    var log := Step(cfg, s, Locked(t)).log;
    if id in s.cache.entries && log == s.log + [Served(s.ops[t].q, id, s.cache.entries[id].put.response, s.now)] {
      assert log[|s.log|] == Served(s.ops[t].q, id, s.cache.entries[id].put.response, s.now);
    }
  }

  /** Entries and index agree, and the stored vectors are the embeddings of the prompts. */
  ghost predicate Faithful(cfg: Config, s: State) {
    Invariant(cfg, s) && Embedded(cfg, s)
  }

  lemma StepKeepsFaithful(cfg: Config, s: State, a: Action)
    requires Faithful(cfg, s) && Enabled(cfg, s, a)
    ensures Faithful(cfg, Step(cfg, s, a))
  {
    StepKeepsAgreement(cfg, s, a);
    StepKeepsBookkeeping(cfg, s, a);
    StepKeepsEmbedded(cfg, s, a);
  }

  lemma ServedAtLock(cfg: Config, s: State, t: nat, q: Query, id: Id)
    requires Faithful(cfg, s) && (t in s.ops ==> s.ops[t].GetFound? && s.ops[t].q == q)
    ensures IsServed(cfg, s, t, q, id) <==> t in s.ops && s.ops[t].id == id && Suits(cfg, s, q, id)
  {
    if t in s.ops {
      JudgedHit(cfg, s, t);
      AnswerLogs(cfg, s, t, id);
    }
  }

  lemma SearchGives(cfg: Config, s: State, t: nat, q: Query, found: Option<Id>)
    requires t in s.ops && s.ops[t] == GetReady(q) && Nearest(cfg, s.index, q, found)
    ensures Enabled(cfg, s, Search(t, found))
    ensures var ops := Step(cfg, s, Search(t, found)).ops;
            if found.None? then t !in ops else t in ops && ops[t].GetFound? && ops[t].q == q && ops[t].id == found.value
  {
  }

  lemma ServedFrom(cfg: Config, s: State, t: nat, q: Query, found: Option<Id>, meanwhile: seq<Action>, id: Id)
    requires Faithful(cfg, s) && t in s.ops && s.ops[t] == GetReady(q) && Nearest(cfg, s.index, q, found)
    requires IsRun(cfg, Step(cfg, s, Search(t, found)), meanwhile) && forall a <- meanwhile :: !Concerns(a, t)
    ensures var e := End(cfg, Step(cfg, s, Search(t, found)), meanwhile);
            IsServed(cfg, e, t, q, id) <==> found == Some(id) && Suits(cfg, e, q, id)
  {
    SearchGives(cfg, s, t, q, found);
    StepKeepsFaithful(cfg, s, Search(t, found));
    var searched := Step(cfg, s, Search(t, found));
    RunKeepsEmbedded(cfg, searched, meanwhile);
    RunKeepsOp(cfg, searched, meanwhile, t);
    ServedAtLock(cfg, End(cfg, searched, meanwhile), t, q, id);
  }

  /** In every run: the request whose search found the nearest vector `found`, and which
      then takes the lock after any steps of others, is served with entry `id` if and only if
      the nearest vector is that of `id` and `id` suits the request at that moment. */
  lemma ServedIffNearestSuits(
    cfg: Config, past: seq<Action>, t: nat, q: Query, found: Option<Id>, meanwhile: seq<Action>, id: Id)
    requires IsRun(cfg, INITIAL, past)
    requires var s := End(cfg, INITIAL, past);
             && t in s.ops && s.ops[t] == GetReady(q) && Nearest(cfg, s.index, q, found)
             && IsRun(cfg, Step(cfg, s, Search(t, found)), meanwhile)
    requires forall a <- meanwhile :: !Concerns(a, t)
    ensures var e := End(cfg, Step(cfg, End(cfg, INITIAL, past), Search(t, found)), meanwhile);
            IsServed(cfg, e, t, q, id) <==> found == Some(id) && Suits(cfg, e, q, id)
  {
    InitialInvariant(cfg);
    RunKeepsEmbedded(cfg, INITIAL, past);
    ServedFrom(cfg, End(cfg, INITIAL, past), t, q, found, meanwhile, id);
  }

  lemma SuitableIsVisible(cfg: Config, s: State, q: Query, id: Id)
    requires EntriesPlaced(cfg, s) && Embedded(cfg, s) && Suits(cfg, s, q, id)
    ensures MayFind(cfg, s.index, q, id)
  {
    assert Placed(cfg, s.index, id, q.key);
  }

  /** When the search finds nothing, no entry suits the request. */
  lemma NothingFoundNothingSuits(cfg: Config, past: seq<Action>, q: Query, id: Id)
    requires IsRun(cfg, INITIAL, past) && Nearest(cfg, End(cfg, INITIAL, past).index, q, None)
    ensures !Suits(cfg, End(cfg, INITIAL, past), q, id)
  {
    InitialInvariant(cfg);
    RunKeepsEmbedded(cfg, INITIAL, past);
    if Suits(cfg, End(cfg, INITIAL, past), q, id) {
      SuitableIsVisible(cfg, End(cfg, INITIAL, past), q, id);
      assert false;
    }
  }
}
