/** The rate limiter that cluster nodes share: a token bucket in one Redis key, updated by
    an atomic script and expiring 600 seconds after its last write. Tokens are reals, so
    rounding is not modelled; times are milliseconds. Redis is assumed to answer. */
module TokenBucket {
  import opened Wrappers

  datatype Bucket = Bucket(tokens: real, lastRefill: int)

  datatype Config = Config(maxTokens: real, refillRate: real) {
    ghost predicate Valid() {
      maxTokens >= 0.0 && refillRate >= 0.0
    }
  }

  const EXPIRY := 600_000

  /** What the bucket earns between two times; negative when a clock runs behind. */
  function Earned(cfg: Config, from: int, to: int): real {
    (to - from) as real / 1000.0 * cfg.refillRate
  }

  function Refilled(cfg: Config, b: Option<Bucket>, now: int): real {
    var tokens := if b.Some? then b.value.tokens + Earned(cfg, b.value.lastRefill, now) else cfg.maxTokens;
    if tokens < cfg.maxTokens then tokens else cfg.maxTokens
  }

  predicate Allows(cfg: Config, b: Option<Bucket>, cost: real, now: int) {
    Refilled(cfg, b, now) >= cost
  }

  /** The script's write. */
  function Charge(cfg: Config, b: Option<Bucket>, cost: real, now: int): Bucket {
    var tokens := Refilled(cfg, b, now);
    Bucket(if tokens >= cost then tokens - cost else tokens, now)
  }

  // ---------------------------------------------------------------- the admitted cost

  /** One evaluation of the script, with the clock reading of the node that asked for it. */
  datatype Call = Call(cost: real, now: int)

  function Admitted(cfg: Config, b: Option<Bucket>, calls: seq<Call>): real
    decreases |calls|
  {
    if calls == [] then 0.0
    else (if Allows(cfg, b, calls[0].cost, calls[0].now) then calls[0].cost else 0.0)
         + Admitted(cfg, Some(Charge(cfg, b, calls[0].cost, calls[0].now)), calls[1..])
  }

  ghost predicate Within(calls: seq<Call>, lo: int, hi: int) {
    forall c <- calls :: c.cost >= 0.0 && lo <= c.now <= hi
  }

  lemma EarnedAdds(cfg: Config, a: int, b: int, c: int)
    ensures Earned(cfg, a, b) + Earned(cfg, b, c) == Earned(cfg, a, c)
  {
    var x, y := (b - a) as real / 1000.0, (c - b) as real / 1000.0;
    assert x * cfg.refillRate + y * cfg.refillRate == (x + y) * cfg.refillRate;
  }

  lemma EarnedGrows(cfg: Config, from: int, to: int)
    requires cfg.Valid() && from <= to
    ensures Earned(cfg, from, to) >= 0.0
  {
  }

  /** What a bucket holds and can still earn until `hi` bounds what it admits until then. */
  lemma {:induction false} AdmittedFromBucket(cfg: Config, b: Bucket, calls: seq<Call>, lo: int, hi: int)
    requires cfg.Valid() && Within(calls, lo, hi)
    ensures var most := b.tokens + Earned(cfg, b.lastRefill, hi);
            Admitted(cfg, Some(b), calls) <= if most > 0.0 then most else 0.0
    decreases |calls|
  {
    if calls != [] {
      var c := calls[0];
      EarnedAdds(cfg, b.lastRefill, c.now, hi);
      EarnedGrows(cfg, c.now, hi);
      AdmittedFromBucket(cfg, Charge(cfg, Some(b), c.cost, c.now), calls[1..], lo, hi);
    }
  }

  /** However many nodes call and however their clocks disagree: calls stamped within a
      window admit together at most a full bucket and what is earned in the window. */
  lemma AdmittedIsBounded(cfg: Config, b: Option<Bucket>, calls: seq<Call>, lo: int, hi: int)
    requires cfg.Valid() && lo <= hi && Within(calls, lo, hi)
    ensures Admitted(cfg, b, calls) <= cfg.maxTokens + Earned(cfg, lo, hi)
  {
    EarnedGrows(cfg, lo, hi);
    if calls != [] {
      var c := calls[0];
      EarnedAdds(cfg, lo, c.now, hi);
      EarnedGrows(cfg, lo, c.now);
      EarnedGrows(cfg, c.now, hi);
      AdmittedFromBucket(cfg, Charge(cfg, b, c.cost, c.now), calls[1..], lo, hi);
    }
  }

  /** Spending the full bucket at once, and then in every millisecond what it earns. */
  function Greedy(cfg: Config, lo: int, hi: int): seq<Call>
    requires lo <= hi
    decreases hi - lo
  {
    if lo == hi then [Call(cfg.maxTokens, lo)] else Greedy(cfg, lo, hi - 1) + [Call(Earned(cfg, hi - 1, hi), hi)]
  }

  function BucketAfter(cfg: Config, b: Option<Bucket>, calls: seq<Call>): Option<Bucket>
    decreases |calls|
  {
    if calls == [] then b else BucketAfter(cfg, Some(Charge(cfg, b, calls[0].cost, calls[0].now)), calls[1..])
  }

  lemma {:induction false} OneMoreCall(cfg: Config, b: Option<Bucket>, calls: seq<Call>, c: Call)
    ensures var before := BucketAfter(cfg, b, calls);
            && BucketAfter(cfg, b, calls + [c]) == Some(Charge(cfg, before, c.cost, c.now))
            && Admitted(cfg, b, calls + [c])
               == Admitted(cfg, b, calls) + if Allows(cfg, before, c.cost, c.now) then c.cost else 0.0
    decreases |calls|
  {
    if calls == [] {
      assert (calls + [c])[1..] == [];
    } else {
      assert (calls + [c])[1..] == calls[1..] + [c];
      OneMoreCall(cfg, Some(Charge(cfg, b, calls[0].cost, calls[0].now)), calls[1..], c);
    }
  }

  /** The bound is reached in every window by a bucket that can hold what it earns in a
      millisecond: nothing that was earned is withheld. */
  lemma {:induction false} BoundIsReached(cfg: Config, lo: int, hi: int)
    requires cfg.Valid() && lo <= hi && cfg.refillRate <= 1000.0 * cfg.maxTokens
    ensures Within(Greedy(cfg, lo, hi), lo, hi)
    ensures BucketAfter(cfg, None, Greedy(cfg, lo, hi)) == Some(Bucket(0.0, hi))
    ensures Admitted(cfg, None, Greedy(cfg, lo, hi)) == cfg.maxTokens + Earned(cfg, lo, hi)
    decreases hi - lo
  {
    if lo == hi {
      OneMoreCall(cfg, None, [], Call(cfg.maxTokens, lo));
      assert [] + [Call(cfg.maxTokens, lo)] == Greedy(cfg, lo, hi);
    } else {
      BoundIsReached(cfg, lo, hi - 1);
      OneMoreCall(cfg, None, Greedy(cfg, lo, hi - 1), Call(Earned(cfg, hi - 1, hi), hi));
      EarnedAdds(cfg, lo, hi - 1, hi);
    }
  }

  // ---------------------------------------------------------------- expiry

  /** The key in Redis under one monotone clock, and the answers given so far. */
  datatype State = State(bucket: Option<Bucket>, now: int, answers: seq<bool>)

  datatype Action = Tick(elapsed: nat) | Ask(cost: real) | Expire

  /** The key may vanish once 600 seconds have passed since its last write, and stays away
      until the next one. */
  predicate Enabled(s: State, a: Action) {
    match a
    case Tick(_) => true
    case Ask(cost) => cost >= 0.0
    case Expire => s.bucket.Some? ==> s.now - s.bucket.value.lastRefill >= EXPIRY
  }

  function Step(cfg: Config, s: State, a: Action): State {
    match a
    case Tick(elapsed) => s.(now := s.now + elapsed)
    case Ask(cost) =>
      State(Some(Charge(cfg, s.bucket, cost, s.now)), s.now, s.answers + [Allows(cfg, s.bucket, cost, s.now)])
    case Expire => s.(bucket := None)
  }

  ghost predicate IsRun(cfg: Config, s: State, actions: seq<Action>)
    decreases |actions|
  {
    actions == [] || (Enabled(s, actions[0]) && IsRun(cfg, Step(cfg, s, actions[0]), actions[1..]))
  }

  function End(cfg: Config, s: State, actions: seq<Action>): State
    decreases |actions|
  {
    if actions == [] then s else End(cfg, Step(cfg, s, actions[0]), actions[1..])
  }

  /** Holds in a state without a key and is kept by every step. */
  ghost predicate Reachable(s: State) {
    s.bucket.Some? ==> s.bucket.value.tokens >= 0.0 && s.bucket.value.lastRefill <= s.now
  }

  /** The run in which the key never expires. */
  function WithoutExpiry(actions: seq<Action>): seq<Action> {
    if actions == [] then []
    else (if actions[0].Expire? then [] else [actions[0]]) + WithoutExpiry(actions[1..])
  }

  /** `t` has kept the bucket that `s` may have lost, and that bucket is full again. */
  ghost predicate Alike(cfg: Config, s: State, t: State) {
    && s.now == t.now
    && s.answers == t.answers
    && (s.bucket == t.bucket || (s.bucket.None? && Refilled(cfg, t.bucket, t.now) == cfg.maxTokens))
  }

  lemma FullAfterExpiry(cfg: Config, b: Bucket, now: int)
    requires cfg.Valid() && cfg.maxTokens <= 600.0 * cfg.refillRate
    requires b.tokens >= 0.0 && now - b.lastRefill >= EXPIRY
    ensures Refilled(cfg, Some(b), now) == cfg.maxTokens
  {
    var seconds := (now - b.lastRefill) as real / 1000.0;
    assert seconds >= 600.0;
    assert seconds * cfg.refillRate >= 600.0 * cfg.refillRate;
  }

  lemma StepKeepsAlike(cfg: Config, s: State, t: State, a: Action)
    requires cfg.Valid() && cfg.maxTokens <= 600.0 * cfg.refillRate
    requires Reachable(s) && Reachable(t) && Alike(cfg, s, t) && Enabled(s, a)
    ensures Reachable(Step(cfg, s, a))
    ensures a.Expire? ==> Alike(cfg, Step(cfg, s, a), t)
    ensures !a.Expire? ==> Enabled(t, a) && Alike(cfg, Step(cfg, s, a), Step(cfg, t, a)) && Reachable(Step(cfg, t, a))
  {
    match a
    case Tick(elapsed) =>
      if t.bucket.Some? {
        EarnedAdds(cfg, t.bucket.value.lastRefill, t.now, t.now + elapsed);
        EarnedGrows(cfg, t.now, t.now + elapsed);
      }
    case Ask(_) =>
      RefilledIsNatural(cfg, s);
    case Expire =>
      if s.bucket.Some? {
        FullAfterExpiry(cfg, s.bucket.value, s.now);
      }
  }

  lemma RefilledIsNatural(cfg: Config, s: State)
    requires cfg.Valid() && Reachable(s)
    ensures Refilled(cfg, s.bucket, s.now) >= 0.0
  {
    if s.bucket.Some? {
      EarnedGrows(cfg, s.bucket.value.lastRefill, s.now);
    }
  }

  lemma {:induction false} AlikeToTheEnd(cfg: Config, s: State, t: State, actions: seq<Action>)
    requires cfg.Valid() && cfg.maxTokens <= 600.0 * cfg.refillRate
    requires Reachable(s) && Reachable(t) && Alike(cfg, s, t) && IsRun(cfg, s, actions)
    ensures IsRun(cfg, t, WithoutExpiry(actions))
    ensures Alike(cfg, End(cfg, s, actions), End(cfg, t, WithoutExpiry(actions)))
    decreases |actions|
  {
    if actions != [] {
      var a := actions[0];
      StepKeepsAlike(cfg, s, t, a);
      var t' := if a.Expire? then t else Step(cfg, t, a);
      AlikeToTheEnd(cfg, Step(cfg, s, a), t', actions[1..]);
      if a.Expire? {
        assert WithoutExpiry(actions) == WithoutExpiry(actions[1..]);
      } else {
        assert WithoutExpiry(actions)[1..] == WithoutExpiry(actions[1..]);
      }
    }
  }

  ghost predicate ExpiryIsInvisible(cfg: Config) {
    forall s, actions :: Reachable(s) && IsRun(cfg, s, actions) ==>
      End(cfg, s, actions).answers == End(cfg, s, WithoutExpiry(actions)).answers
  }

  /** Spend the bucket, wait out the expiry, spend it again. */
  function SpendTwice(cfg: Config): seq<Action> {
    [Ask(cfg.maxTokens), Tick(EXPIRY), Expire, Ask(cfg.maxTokens)]
  }

  function NewKey(): State {
    State(None, 0, [])
  }

  lemma SpendTwiceWithExpiry(cfg: Config)
    requires cfg.Valid()
    ensures IsRun(cfg, NewKey(), SpendTwice(cfg)) && End(cfg, NewKey(), SpendTwice(cfg)).answers == [true, true]
  {
    var actions := SpendTwice(cfg);
    assert actions[1..][1..] == actions[2..] && actions[2..][1..] == actions[3..] && actions[3..][1..] == [];
    var s1 := Step(cfg, NewKey(), actions[0]);
    var s2 := Step(cfg, s1, actions[1]);
    var s3 := Step(cfg, s2, actions[2]);
    var s4 := Step(cfg, s3, actions[3]);
    assert s1.answers == [true] && s3 == State(None, EXPIRY, [true]) && s4.answers == [true, true];
    assert IsRun(cfg, s3, actions[3..]) && End(cfg, s3, actions[3..]) == s4;
    assert IsRun(cfg, s2, actions[2..]) && End(cfg, s2, actions[2..]) == s4;
    assert IsRun(cfg, s1, actions[1..]) && End(cfg, s1, actions[1..]) == s4;
  }

  lemma SpendTwiceWithoutExpiry(cfg: Config)
    requires cfg.Valid() && cfg.maxTokens > 600.0 * cfg.refillRate
    ensures End(cfg, NewKey(), WithoutExpiry(SpendTwice(cfg))).answers == [true, false]
  {
    var actions := [Ask(cfg.maxTokens), Tick(EXPIRY), Ask(cfg.maxTokens)];
    assert WithoutExpiry(SpendTwice(cfg)) == actions by {
      var all := SpendTwice(cfg);
      assert all[1..][1..] == all[2..] && all[2..][1..] == all[3..] && all[3..][1..] == [];
      assert WithoutExpiry(all[3..]) == [Ask(cfg.maxTokens)];
      assert WithoutExpiry(all[2..]) == [Ask(cfg.maxTokens)];
    }
    var s1 := Step(cfg, NewKey(), actions[0]);
    var s2 := Step(cfg, s1, actions[1]);
    var s3 := Step(cfg, s2, actions[2]);
    assert actions[2..][1..] == [] && actions[1..][1..] == actions[2..];
    assert End(cfg, s2, actions[2..]) == s3;
    assert End(cfg, s1, actions[1..]) == s3;
  }

  /** The expiry of the key never changes an answer exactly when a bucket refills within
      the 600 seconds the key lives. */
  lemma ExpiryIsInvisibleIff(cfg: Config)
    requires cfg.Valid()
    ensures ExpiryIsInvisible(cfg) <==> cfg.maxTokens <= 600.0 * cfg.refillRate
  {
    if cfg.maxTokens <= 600.0 * cfg.refillRate {
      forall s, actions | Reachable(s) && IsRun(cfg, s, actions)
        ensures End(cfg, s, actions).answers == End(cfg, s, WithoutExpiry(actions)).answers
      {
        AlikeToTheEnd(cfg, s, s, actions);
      }
    } else {
      SpendTwiceWithExpiry(cfg);
      SpendTwiceWithoutExpiry(cfg);
      assert Reachable(NewKey());
    }
  }

  // ---------------------------------------------------------------- both together

  /** The cost of the calls a stretch of a run admits. */
  function Spent(cfg: Config, s: State, actions: seq<Action>): real
    decreases |actions|
  {
    if actions == [] then 0.0
    else (if actions[0].Ask? && Allows(cfg, s.bucket, actions[0].cost, s.now) then actions[0].cost else 0.0)
         + Spent(cfg, Step(cfg, s, actions[0]), actions[1..])
  }

  /** The script evaluations of a run without expiry, stamped with the shared clock. */
  function CallsOf(now: int, actions: seq<Action>): seq<Call>
    decreases |actions|
  {
    if actions == [] then []
    else match actions[0]
      case Tick(elapsed) => CallsOf(now + elapsed, actions[1..])
      case Ask(cost) => [Call(cost, now)] + CallsOf(now, actions[1..])
      case Expire => CallsOf(now, actions[1..])
  }

  lemma {:induction false} SpentIsAdmitted(cfg: Config, s: State, t: State, actions: seq<Action>)
    requires cfg.Valid() && cfg.maxTokens <= 600.0 * cfg.refillRate
    requires Reachable(s) && Reachable(t) && Alike(cfg, s, t) && IsRun(cfg, s, actions)
    ensures Spent(cfg, s, actions) == Admitted(cfg, t.bucket, CallsOf(s.now, actions))
    ensures s.now <= End(cfg, s, actions).now
    ensures Within(CallsOf(s.now, actions), s.now, End(cfg, s, actions).now)
    decreases |actions|
  {
    if actions != [] {
      var a := actions[0];
      StepKeepsAlike(cfg, s, t, a);
      var t' := if a.Expire? then t else Step(cfg, t, a);
      SpentIsAdmitted(cfg, Step(cfg, s, a), t', actions[1..]);
      if a.Ask? {
        assert CallsOf(s.now, actions)[1..] == CallsOf(s.now, actions[1..]);
      }
    }
  }

  /** Over any stretch of any run, with the key expiring whenever Redis likes to drop it. */
  lemma SpentIsBounded(cfg: Config, s: State, actions: seq<Action>)
    requires cfg.Valid() && cfg.maxTokens <= 600.0 * cfg.refillRate
    requires Reachable(s) && IsRun(cfg, s, actions)
    ensures Spent(cfg, s, actions) <= cfg.maxTokens + Earned(cfg, s.now, End(cfg, s, actions).now)
  {
    SpentIsAdmitted(cfg, s, s, actions);
    AdmittedIsBounded(cfg, s.bucket, CallsOf(s.now, actions), s.now, End(cfg, s, actions).now);
  }

  /** A slower bucket does not keep the bound: two full buckets in 600 seconds. */
  lemma SlowBucketOverspends(cfg: Config)
    requires cfg.Valid() && cfg.maxTokens > 600.0 * cfg.refillRate
    ensures IsRun(cfg, NewKey(), SpendTwice(cfg))
    ensures var e := End(cfg, NewKey(), SpendTwice(cfg));
            Spent(cfg, NewKey(), SpendTwice(cfg)) > cfg.maxTokens + Earned(cfg, NewKey().now, e.now)
  {
    SpendTwiceWithExpiry(cfg);
    var actions := SpendTwice(cfg);
    var s1 := Step(cfg, NewKey(), actions[0]);
    var s2 := Step(cfg, s1, actions[1]);
    var s3 := Step(cfg, s2, actions[2]);
    var s4 := Step(cfg, s3, actions[3]);
    assert actions[1..][1..] == actions[2..] && actions[2..][1..] == actions[3..] && actions[3..][1..] == [];
    assert Spent(cfg, s3, actions[3..]) == cfg.maxTokens && End(cfg, s3, actions[3..]) == s4;
    assert Spent(cfg, s2, actions[2..]) == cfg.maxTokens && End(cfg, s2, actions[2..]) == s4;
    assert Spent(cfg, s1, actions[1..]) == cfg.maxTokens && End(cfg, s1, actions[1..]) == s4;
  }

  // ---------------------------------------------------------------- refused calls

  /** The answers a stretch of a run gives. */
  function Answers(cfg: Config, s: State, actions: seq<Action>): seq<bool>
    decreases |actions|
  {
    if actions == [] then []
    else (if actions[0].Ask? then [Allows(cfg, s.bucket, actions[0].cost, s.now)] else [])
         + Answers(cfg, Step(cfg, s, actions[0]), actions[1..])
  }

  /** The actions that are not dropped. */
  function Thinned(actions: seq<Action>, drop: seq<bool>): seq<Action>
    requires |drop| == |actions|
  {
    if actions == [] then []
    else (if drop[0] then [] else [actions[0]]) + Thinned(actions[1..], drop[1..])
  }

  /** The answers to the calls that are not dropped. */
  function AnswersKept(cfg: Config, s: State, actions: seq<Action>, drop: seq<bool>): seq<bool>
    requires |drop| == |actions|
    decreases |actions|
  {
    if actions == [] then []
    else (if actions[0].Ask? && !drop[0] then [Allows(cfg, s.bucket, actions[0].cost, s.now)] else [])
         + AnswersKept(cfg, Step(cfg, s, actions[0]), actions[1..], drop[1..])
  }

  /** Only calls that are refused are dropped. */
  predicate DropsRefused(cfg: Config, s: State, actions: seq<Action>, drop: seq<bool>)
    requires |drop| == |actions|
    decreases |actions|
  {
    actions == [] ||
    (&& (drop[0] ==> actions[0].Ask? && !Allows(cfg, s.bucket, actions[0].cost, s.now))
     && DropsRefused(cfg, Step(cfg, s, actions[0]), actions[1..], drop[1..]))
  }

  /** Waiting adds what is earned meanwhile, up to a full bucket. */
  lemma RefilledLater(cfg: Config, b: Option<Bucket>, now: int, later: int)
    requires cfg.Valid() && now <= later
    ensures var tokens := Refilled(cfg, b, now) + Earned(cfg, now, later);
            Refilled(cfg, b, later) == if tokens < cfg.maxTokens then tokens else cfg.maxTokens
  {
    EarnedGrows(cfg, now, later);
    if b.Some? {
      EarnedAdds(cfg, b.value.lastRefill, now, later);
    }
  }

  /** `t` holds as many tokens as `s`, and its key, if any, was written no later. */
  ghost predicate HoldsAsMuch(cfg: Config, s: State, t: State) {
    && s.now == t.now
    && Refilled(cfg, s.bucket, s.now) == Refilled(cfg, t.bucket, t.now)
    && (t.bucket.Some? ==> s.bucket.Some? && t.bucket.value.lastRefill <= s.bucket.value.lastRefill <= s.now)
  }

  lemma JustCharged(cfg: Config, b: Option<Bucket>, cost: real, now: int)
    requires cost >= 0.0
    ensures Refilled(cfg, Some(Charge(cfg, b, cost, now)), now)
            == Refilled(cfg, b, now) - if Allows(cfg, b, cost, now) then cost else 0.0
  {
  }

  lemma StepHoldsAsMuch(cfg: Config, s: State, t: State, a: Action)
    requires cfg.Valid() && HoldsAsMuch(cfg, s, t) && Enabled(s, a)
    ensures Enabled(t, a) && HoldsAsMuch(cfg, Step(cfg, s, a), Step(cfg, t, a))
    ensures a.Ask? && !Allows(cfg, s.bucket, a.cost, s.now) ==> HoldsAsMuch(cfg, Step(cfg, s, a), t)
  {
    match a
    case Tick(elapsed) =>
      RefilledLater(cfg, s.bucket, s.now, s.now + elapsed);
      RefilledLater(cfg, t.bucket, t.now, t.now + elapsed);
    case Ask(cost) =>
      JustCharged(cfg, s.bucket, cost, s.now);
      JustCharged(cfg, t.bucket, cost, t.now);
    case Expire =>
  }

  lemma ThinnedFirst(actions: seq<Action>, drop: seq<bool>)
    requires |drop| == |actions| > 0
    ensures Thinned(actions, drop)
            == if drop[0] then Thinned(actions[1..], drop[1..]) else [actions[0]] + Thinned(actions[1..], drop[1..])
  {
  }

  /** A run of one more action. */
  lemma FirstAction(cfg: Config, t: State, a: Action, rest: seq<Action>)
    requires Enabled(t, a) && IsRun(cfg, Step(cfg, t, a), rest)
    ensures IsRun(cfg, t, [a] + rest)
    ensures Answers(cfg, t, [a] + rest)
            == (if a.Ask? then [Allows(cfg, t.bucket, a.cost, t.now)] else []) + Answers(cfg, Step(cfg, t, a), rest)
    ensures Spent(cfg, t, [a] + rest)
            == (if a.Ask? && Allows(cfg, t.bucket, a.cost, t.now) then a.cost else 0.0) + Spent(cfg, Step(cfg, t, a), rest)
  {
    assert ([a] + rest)[1..] == rest;
  }

  lemma {:induction false} ThinnedIsAlike(cfg: Config, s: State, t: State, actions: seq<Action>, drop: seq<bool>)
    requires cfg.Valid() && HoldsAsMuch(cfg, s, t) && IsRun(cfg, s, actions)
    requires |drop| == |actions| && DropsRefused(cfg, s, actions, drop)
    ensures IsRun(cfg, t, Thinned(actions, drop))
    ensures Answers(cfg, t, Thinned(actions, drop)) == AnswersKept(cfg, s, actions, drop)
    ensures Spent(cfg, t, Thinned(actions, drop)) == Spent(cfg, s, actions)
    decreases |actions|
  {
    if actions != [] {
      var a, rest := actions[0], Thinned(actions[1..], drop[1..]);
      StepHoldsAsMuch(cfg, s, t, a);
      ThinnedFirst(actions, drop);
      if drop[0] {
        ThinnedIsAlike(cfg, Step(cfg, s, a), t, actions[1..], drop[1..]);
      } else {
        ThinnedIsAlike(cfg, Step(cfg, s, a), Step(cfg, t, a), actions[1..], drop[1..]);
        FirstAction(cfg, t, a, rest);
        assert a.Ask? ==> Allows(cfg, s.bucket, a.cost, s.now) == Allows(cfg, t.bucket, a.cost, t.now);
      }
    }
  }

  /** A refused call costs nobody anything: leave out any of the refused calls of any run, and
      every other call is answered as before, with the same cost admitted, whatever the key
      does meanwhile. */
  lemma RefusalsAreFree(cfg: Config, s: State, actions: seq<Action>, drop: seq<bool>)
    requires cfg.Valid() && Reachable(s) && IsRun(cfg, s, actions)
    requires |drop| == |actions| && DropsRefused(cfg, s, actions, drop)
    ensures IsRun(cfg, s, Thinned(actions, drop))
    ensures Answers(cfg, s, Thinned(actions, drop)) == AnswersKept(cfg, s, actions, drop)
    ensures Spent(cfg, s, Thinned(actions, drop)) == Spent(cfg, s, actions)
  {
    ThinnedIsAlike(cfg, s, s, actions, drop);
  }
}
