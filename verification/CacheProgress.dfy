/** Every run can be brought to rest: the operations in flight can all finish by their own
    steps, in any order and whatever the index answers, and then cache and index agree. */
module CacheProgress {
  import opened CacheRun
  import opened CacheTheorems
  import opened PartitionedIndex
  import opened SemanticCache
  import opened Wrappers

  lemma LongerRun(cfg: Config, s: State, a: Action, rest: seq<Action>)
    requires Enabled(cfg, s, a) && IsRun(cfg, Step(cfg, s, a), rest)
    ensures IsRun(cfg, s, [a] + rest) && End(cfg, s, [a] + rest) == End(cfg, Step(cfg, s, a), rest)
  {
    assert ([a] + rest)[1..] == rest;
  }

  /** Two runs one after the other are a run; `s'` is where the first one ends. */
  lemma {:induction false} RunsComposeAt(cfg: Config, s: State, a: seq<Action>, s': State, b: seq<Action>)
    requires IsRun(cfg, s, a) && s' == End(cfg, s, a) && IsRun(cfg, s', b)
    ensures IsRun(cfg, s, a + b) && End(cfg, s, a + b) == End(cfg, s', b)
    decreases |a|
  {
    if a == [] {
      assert a + b == b;
    } else {
      RunsComposeAt(cfg, Step(cfg, s, a[0]), a[1..], s', b);
      LongerRun(cfg, s, a[0], a[1..] + b);
      assert a + b == [a[0]] + (a[1..] + b);
    }
  }

  lemma RunsCompose(cfg: Config, s: State, a: seq<Action>, b: seq<Action>)
    requires IsRun(cfg, s, a) && IsRun(cfg, End(cfg, s, a), b)
    ensures IsRun(cfg, s, a + b) && End(cfg, s, a + b) == End(cfg, End(cfg, s, a), b)
  {
    RunsComposeAt(cfg, s, a, End(cfg, s, a), b);
  }

  lemma OneStepRun(cfg: Config, s: State, a: Action)
    requires Enabled(cfg, s, a)
    ensures IsRun(cfg, s, [a]) && End(cfg, s, [a]) == Step(cfg, s, a)
  {
    assert IsRun(cfg, Step(cfg, s, a), []);
    LongerRun(cfg, s, a, []);
    assert [a] + [] == [a];
  }

  function Elapsed(actions: seq<Action>): nat {
    if actions == [] then 0 else (if actions[0].Tick? then actions[0].elapsed else 0) + Elapsed(actions[1..])
  }

  /** The clock moves by the time that passes and by nothing else. */
  lemma {:induction false} ClockIsElapsed(cfg: Config, s: State, actions: seq<Action>)
    requires IsRun(cfg, s, actions)
    ensures End(cfg, s, actions).now == s.now + Elapsed(actions)
    decreases |actions|
  {
    if actions != [] {
      ClockIsElapsed(cfg, Step(cfg, s, actions[0]), actions[1..]);
    }
  }

  // ---------------------------------------------------------------- one operation

  /** An operation that has nothing left to remove is over. */
  ghost predicate NoneIdle(s: State) {
    forall t <- s.ops :: s.ops[t].Flush? ==> s.ops[t].removals != map[]
  }

  lemma NoneIdleBut(s: State, s': State, t: nat)
    requires NoneIdle(s) && (forall u <- s'.ops :: u != t ==> u in s.ops && s'.ops[u] == s.ops[u])
    requires t in s'.ops && s'.ops[t].Flush? ==> s'.ops[t].removals != map[]
    ensures NoneIdle(s')
  {
  }

  lemma LockedKeepsNoneIdle(cfg: Config, s: State, t: nat)
    requires NoneIdle(s) && Enabled(cfg, s, Locked(t))
    ensures NoneIdle(LockedStep(cfg, s, t))
  {
    NoneIdleBut(s, LockedStep(cfg, s, t), t);
  }

  lemma StepKeepsNoneIdle(cfg: Config, s: State, a: Action)
    requires NoneIdle(s) && Enabled(cfg, s, a)
    ensures NoneIdle(Step(cfg, s, a))
  {
    if a.Locked? {
      LockedKeepsNoneIdle(cfg, s, a.t);
    } else if !a.Tick? {
      NoneIdleBut(s, Step(cfg, s, a), a.t);
    }
  }

  lemma {:induction false} RunKeepsNoneIdle(cfg: Config, s: State, actions: seq<Action>)
    requires NoneIdle(s) && IsRun(cfg, s, actions)
    ensures NoneIdle(End(cfg, s, actions))
    decreases |actions|
  {
    if actions != [] {
      StepKeepsNoneIdle(cfg, s, actions[0]);
      RunKeepsNoneIdle(cfg, Step(cfg, s, actions[0]), actions[1..]);
    }
  }

  /** A step of operation `t`; an insertion gets this answer from the index. */
  predicate OwnStep(a: Action, t: nat, accepted: bool) {
    !a.Tick? && !a.Begin? && a.t == t && (a.InsertVector? ==> a.accepted == accepted)
  }

  ghost predicate Finishes(cfg: Config, s: State, t: nat, accepted: bool, actions: seq<Action>) {
    && IsRun(cfg, s, actions)
    && (forall a <- actions :: OwnStep(a, t, accepted))
    && End(cfg, s, actions).ops == s.ops - {t}
  }

  ghost predicate CanFinish(cfg: Config, s: State, t: nat, accepted: bool) {
    exists actions :: Finishes(cfg, s, t, accepted, actions)
  }

  lemma LastStep(cfg: Config, s: State, t: nat, accepted: bool, a: Action)
    requires Enabled(cfg, s, a) && OwnStep(a, t, accepted) && Step(cfg, s, a).ops == s.ops - {t}
    ensures CanFinish(cfg, s, t, accepted)
  {
    OneStepRun(cfg, s, a);
    assert Finishes(cfg, s, t, accepted, [a]);
  }

  lemma OneMoreStep(cfg: Config, s: State, t: nat, accepted: bool, a: Action)
    requires Enabled(cfg, s, a) && OwnStep(a, t, accepted)
    requires Step(cfg, s, a).ops - {t} == s.ops - {t} && CanFinish(cfg, Step(cfg, s, a), t, accepted)
    ensures CanFinish(cfg, s, t, accepted)
  {
    var rest :| Finishes(cfg, Step(cfg, s, a), t, accepted, rest);
    LongerRun(cfg, s, a, rest);
    assert Finishes(cfg, s, t, accepted, [a] + rest);
  }

  lemma ReplacedOp(ops: map<nat, Op>, t: nat, op: Op)
    ensures ops[t := op] - {t} == ops - {t}
  {
  }

  lemma FlushRemoves(cfg: Config, s: State, t: nat, id: Id)
    requires t in s.ops && s.ops[t].Flush? && id in s.ops[t].removals
    ensures Enabled(cfg, s, RemoveVector(t, id))
    ensures var left := s.ops[t].removals - {id};
            Step(cfg, s, RemoveVector(t, id)).ops == if left == map[] then s.ops - {t} else s.ops[t := Flush(left)]
  {
  }

  lemma PutRemoves(cfg: Config, s: State, t: nat, id: Id)
    requires t in s.ops && s.ops[t].PutFlush? && id in s.ops[t].removals
    ensures Enabled(cfg, s, RemoveVector(t, id))
    ensures var left := s.ops[t].removals - {id};
            Step(cfg, s, RemoveVector(t, id)).ops == s.ops[t := PutFlush(s.ops[t].put, s.ops[t].id, left)]
  {
  }

  lemma PutAnswered(cfg: Config, s: State, t: nat, accepted: bool)
    requires t in s.ops && s.ops[t].PutFlush? && s.ops[t].removals == map[]
    ensures CanFinish(cfg, s, t, accepted)
  {
    var a := InsertVector(t, accepted);
    if accepted {
      ReplacedOp(s.ops, t, PutInserted(s.ops[t].put, s.ops[t].id));
      LastStep(cfg, Step(cfg, s, a), t, accepted, Locked(t));
      OneMoreStep(cfg, s, t, accepted, a);
    } else {
      LastStep(cfg, s, t, accepted, a);
    }
  }

  lemma {:induction false} FlushFinishes(cfg: Config, s: State, t: nat, accepted: bool)
    requires t in s.ops && s.ops[t].Flush? && s.ops[t].removals != map[]
    ensures CanFinish(cfg, s, t, accepted)
    decreases s.ops[t].removals.Keys
  {
    var id :| id in s.ops[t].removals;
    var left := s.ops[t].removals - {id};
    FlushRemoves(cfg, s, t, id);
    if left == map[] {
      LastStep(cfg, s, t, accepted, RemoveVector(t, id));
    } else {
      ReplacedOp(s.ops, t, Flush(left));
      FlushFinishes(cfg, Step(cfg, s, RemoveVector(t, id)), t, accepted);
      OneMoreStep(cfg, s, t, accepted, RemoveVector(t, id));
    }
  }

  lemma {:induction false} PutFinishes(cfg: Config, s: State, t: nat, accepted: bool)
    requires t in s.ops && s.ops[t].PutFlush?
    ensures CanFinish(cfg, s, t, accepted)
    decreases s.ops[t].removals.Keys
  {
    if s.ops[t].removals == map[] {
      PutAnswered(cfg, s, t, accepted);
    } else {
      var id :| id in s.ops[t].removals;
      PutRemoves(cfg, s, t, id);
      ReplacedOp(s.ops, t, PutFlush(s.ops[t].put, s.ops[t].id, s.ops[t].removals - {id}));
      PutFinishes(cfg, Step(cfg, s, RemoveVector(t, id)), t, accepted);
      OneMoreStep(cfg, s, t, accepted, RemoveVector(t, id));
    }
  }

  lemma SectionFinishes(cfg: Config, s: State, t: nat, accepted: bool)
    requires t in s.ops && (s.ops[t].GetFound? || s.ops[t].ClearReady? || s.ops[t].SweepReady?)
    ensures CanFinish(cfg, s, t, accepted)
  {
    var s' := Step(cfg, s, Locked(t));
    if t in s'.ops {
      FlushFinishes(cfg, s', t, accepted);
      OneMoreStep(cfg, s, t, accepted, Locked(t));
    } else {
      LastStep(cfg, s, t, accepted, Locked(t));
    }
  }

  /** No operation ever waits for another one: each can finish by steps of its own. */
  lemma EveryOperationCanFinish(cfg: Config, s: State, t: nat, accepted: bool)
    requires NoneIdle(s) && t in s.ops
    ensures CanFinish(cfg, s, t, accepted)
  {
    match s.ops[t]
    case PutReady(_) =>
      PutFinishes(cfg, Step(cfg, s, Locked(t)), t, accepted);
      OneMoreStep(cfg, s, t, accepted, Locked(t));
    case PutFlush(_, _, _) => PutFinishes(cfg, s, t, accepted);
    case PutInserted(_, _) => LastStep(cfg, s, t, accepted, Locked(t));
    case GetReady(_) => LastStep(cfg, s, t, accepted, Search(t, None));
    case GetFound(_, _, _) | ClearReady | SweepReady => SectionFinishes(cfg, s, t, accepted);
    case Flush(_) => FlushFinishes(cfg, s, t, accepted);
  }

  // ---------------------------------------------------------------- all operations

  /** A run in which no time passes and nothing begins, and after which nothing is in flight. */
  ghost predicate Rests(cfg: Config, s: State, actions: seq<Action>) {
    && IsRun(cfg, s, actions)
    && (forall a <- actions :: !a.Tick? && !a.Begin?)
    && End(cfg, s, actions).ops == map[]
  }

  lemma {:induction false} CanRest(cfg: Config, s: State)
    requires NoneIdle(s)
    ensures exists actions :: Rests(cfg, s, actions)
    decreases s.ops.Keys
  {
    if s.ops == map[] {
      assert Rests(cfg, s, []);
    } else {
      var t :| t in s.ops;
      EveryOperationCanFinish(cfg, s, t, true);
      var first :| Finishes(cfg, s, t, true, first);
      var s' := End(cfg, s, first);
      RunKeepsNoneIdle(cfg, s, first);
      assert s'.ops.Keys == s.ops.Keys - {t};
      CanRest(cfg, s');
      var rest :| Rests(cfg, s', rest);
      RunsCompose(cfg, s, first, rest);
      assert Rests(cfg, s, first + rest);
    }
  }

  /** The index holds exactly the ids of the cache. */
  ghost predicate Agree(s: State) {
    forall id :: id in s.cache.entries <==> exists k <- s.index :: id in s.index[k]
  }

  /** From every reachable state the operations in flight can finish, and then the index holds
      exactly the cached ids. */
  lemma EveryRunCanRest(cfg: Config, actions: seq<Action>)
    requires IsRun(cfg, INITIAL, actions)
    ensures exists more ::
              Rests(cfg, End(cfg, INITIAL, actions), more) && Agree(End(cfg, End(cfg, INITIAL, actions), more))
  {
    var s := End(cfg, INITIAL, actions);
    RunKeepsNoneIdle(cfg, INITIAL, actions);
    CanRest(cfg, s);
    var more :| Rests(cfg, s, more);
    RunsCompose(cfg, INITIAL, actions, more);
    CacheAndIndexAgree(cfg, actions + more);
  }

  // ---------------------------------------------------------------- sweeping and clearing

  lemma {:induction false} FlushKeepsCache(cfg: Config, s: State, t: nat, accepted: bool, actions: seq<Action>)
    requires IsRun(cfg, s, actions) && forall a <- actions :: OwnStep(a, t, accepted)
    requires t in s.ops ==> s.ops[t].Flush?
    ensures End(cfg, s, actions).cache == s.cache
    decreases |actions|
  {
    if actions != [] {
      assert OwnStep(actions[0], t, accepted);
      FlushKeepsCache(cfg, Step(cfg, s, actions[0]), t, accepted, actions[1..]);
    }
  }

  lemma CleaningFinishes(cfg: Config, s: State, op: Op) returns (actions: seq<Action>)
    requires s.ops == map[] && (op.ClearReady? || op.SweepReady?)
    ensures IsRun(cfg, s, actions) && End(cfg, s, actions).ops == map[]
    ensures End(cfg, s, actions).cache == Step(cfg, s.(ops := map[0 := op]), Locked(0)).cache
  {
    var s1 := Step(cfg, s, Begin(0, op));
    assert s1 == s.(ops := map[0 := op]);
    var s2 := Step(cfg, s1, Locked(0));
    OneStepRun(cfg, s1, Locked(0));
    OneStepRun(cfg, s, Begin(0, op));
    RunsCompose(cfg, s, [Begin(0, op)], [Locked(0)]);
    actions := [Begin(0, op)] + [Locked(0)];
    if 0 in s2.ops {
      FlushFinishes(cfg, s2, 0, true);
      var rest :| Finishes(cfg, s2, 0, true, rest);
      FlushKeepsCache(cfg, s2, 0, true, rest);
      RunsCompose(cfg, s, actions, rest);
      actions := actions + rest;
    }
  }

  /** Of the entries exactly those no older than the ttl are left by a sweep, none by a clear. */
  ghost predicate Cleaned(cfg: Config, entries: map<Id, Entry>, now: int, op: Op, left: map<Id, Entry>) {
    && left.Keys <= entries.Keys
    && forall id <- entries ::
         && (id in left <==> op.SweepReady? && now - entries[id].createdAt <= cfg.limits.ttl)
         && (id in left ==> left[id] == entries[id])
  }

  lemma SectionCleans(cfg: Config, s: State, op: Op)
    requires op.ClearReady? || op.SweepReady?
    ensures var s1 := s.(ops := map[0 := op]);
            Cleaned(cfg, s.cache.entries, s.now, op, Step(cfg, s1, Locked(0)).cache.entries)
  {
  }

  /** A run to rest that cleans the cache as of `elapsed` from now. */
  ghost predicate Cleans(cfg: Config, s: State, elapsed: nat, op: Op, actions: seq<Action>) {
    && IsRun(cfg, s, actions) && End(cfg, s, actions).ops == map[]
    && Cleaned(cfg, s.cache.entries, s.now + elapsed, op, End(cfg, s, actions).cache.entries)
  }

  /** At rest, time may pass and a sweep or a clear may run; it leaves exactly those entries,
      and the index exactly their vectors. */
  lemma CleaningIsExact(cfg: Config, before: seq<Action>, elapsed: nat, op: Op)
    requires IsRun(cfg, INITIAL, before) && End(cfg, INITIAL, before).ops == map[]
    requires op.ClearReady? || op.SweepReady?
    ensures exists actions ::
              && Cleans(cfg, End(cfg, INITIAL, before), elapsed, op, actions)
              && Agree(End(cfg, End(cfg, INITIAL, before), actions))
  {
    var s := End(cfg, INITIAL, before);
    OneStepRun(cfg, s, Tick(elapsed));
    var late := Step(cfg, s, Tick(elapsed));
    SectionCleans(cfg, late, op);
    var rest := CleaningFinishes(cfg, late, op);
    var actions := [Tick(elapsed)] + rest;
    RunsCompose(cfg, s, [Tick(elapsed)], rest);
    RunsCompose(cfg, INITIAL, before, actions);
    CacheAndIndexAgree(cfg, before + actions);
    assert Cleans(cfg, s, elapsed, op, actions);
  }
}
