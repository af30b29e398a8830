/** The circuit breaker that cluster nodes share through one Redis hash. Recording a
    failure is one atomic script and recording a success one DEL; `cbAllowRequest` is a
    sequence of separate commands, each of which is a step here, so the calls of several
    nodes interleave between any two of them. Redis is assumed to answer. */
module CircuitBreaker {
  import opened Wrappers

  /** The hash fields; a missing key is a hash without fields. */
  datatype Hash = Hash(state: Option<int>, failures: Option<int>, probes: Option<int>, lastFailure: Option<int>)

  const ABSENT := Hash(None, None, None, None)

  datatype Config = Config(threshold: int, resetTimeout: int, halfOpenMax: int)

  datatype Verdict = Closed | Open | HalfOpen

  function OrZero(field: Option<int>): int {
    if field.Some? then field.value else 0
  }

  /** Integer division of C++, which rounds toward zero. */
  function Quotient(a: int, b: int): int
    requires b > 0
  {
    if a >= 0 then a / b else -((-a) / b)
  }

  function ComputeState(cfg: Config, state: int, failures: int, lastFailure: int, now: int): Verdict {
    var waited := Quotient(now - lastFailure, 1000) >= cfg.resetTimeout;
    if state == 1 then (if waited then HalfOpen else Open)
    else if state == 2 then HalfOpen
    else if failures >= cfg.threshold then (if waited then HalfOpen else Open)
    else Closed
  }

  /** The failure script, run atomically by Redis. */
  function FailureScript(cfg: Config, h: Hash, now: int): Hash {
    var count := OrZero(h.failures) + 1;
    var state := OrZero(h.state);
    Hash(if state == 2 || (state == 0 && count >= cfg.threshold) then Some(1) else h.state,
         Some(count), h.probes, Some(now))
  }

  // ---------------------------------------------------------------- the protocol

  /** Where a node is inside `cbAllowRequest`, named after its next command; `recent` marks
      calls that began after the observed stretch of the run did. */
  datatype Node =
    | Idle
    | GetState(recent: bool)
    | GetFailures(recent: bool, state: int)
    | GetLastFailure(recent: bool, state: int, failures: int)
    | Decide(recent: bool, state: int, failures: int, lastFailure: int)
    | GetProbes(recent: bool)
    | SetHalfOpen(recent: bool)
    | CountProbe(recent: bool)
    | Extend(recent: bool)

  /** `admitted` and `denied` count the answers given to recent calls. */
  datatype State = State(hash: Hash, nodes: seq<Node>, now: int, admitted: nat, denied: nat)

  datatype Action =
    | Tick(elapsed: nat)
    | Begin(i: nat)
    | Advance(i: nat)
    | RecordFailure
    | RecordSuccess
    | Expire

  predicate Enabled(s: State, a: Action) {
    match a
    case Begin(i) => i < |s.nodes| && s.nodes[i].Idle?
    case Advance(i) => i < |s.nodes| && !s.nodes[i].Idle?
    case _ => true
  }

  function Answer(s: State, i: nat, recent: bool, allowed: bool): State
    requires i < |s.nodes|
  {
    s.(nodes := s.nodes[i := Idle],
       admitted := s.admitted + if recent && allowed then 1 else 0,
       denied := s.denied + if recent && !allowed then 1 else 0)
  }

  function AdvanceStep(cfg: Config, s: State, i: nat): State
    requires Enabled(s, Advance(i))
  {
    match s.nodes[i]
    case GetState(recent) =>
      if s.hash.state.None? then Answer(s, i, recent, true)
      else s.(nodes := s.nodes[i := GetFailures(recent, s.hash.state.value)])
    case GetFailures(recent, state) =>
      s.(nodes := s.nodes[i := GetLastFailure(recent, state, OrZero(s.hash.failures))])
    case GetLastFailure(recent, state, failures) =>
      s.(nodes := s.nodes[i := Decide(recent, state, failures, OrZero(s.hash.lastFailure))])
    case Decide(recent, state, failures, lastFailure) =>
      (match ComputeState(cfg, state, failures, lastFailure, s.now)
       case Closed => Answer(s, i, recent, true)
       case Open => Answer(s, i, recent, false)
       case HalfOpen => s.(nodes := s.nodes[i := GetProbes(recent)]))
    case GetProbes(recent) =>
      if OrZero(s.hash.probes) < cfg.halfOpenMax then s.(nodes := s.nodes[i := SetHalfOpen(recent)])
      else Answer(s, i, recent, false)
    case SetHalfOpen(recent) =>
      s.(hash := s.hash.(state := Some(2)), nodes := s.nodes[i := CountProbe(recent)])
    case CountProbe(recent) =>
      s.(hash := s.hash.(probes := Some(OrZero(s.hash.probes) + 1)), nodes := s.nodes[i := Extend(recent)])
    case Extend(recent) => Answer(s, i, recent, true)
  }

  function Step(cfg: Config, s: State, a: Action): State
    requires Enabled(s, a)
  {
    match a
    case Tick(elapsed) => s.(now := s.now + elapsed)
    case Begin(i) => s.(nodes := s.nodes[i := GetState(true)])
    case Advance(i) => AdvanceStep(cfg, s, i)
    case RecordFailure => s.(hash := FailureScript(cfg, s.hash, s.now))
    case RecordSuccess => s.(hash := ABSENT)
    case Expire => s.(hash := ABSENT)
  }

  ghost predicate IsRun(cfg: Config, s: State, actions: seq<Action>)
    decreases |actions|
  {
    actions == [] || (Enabled(s, actions[0]) && IsRun(cfg, Step(cfg, s, actions[0]), actions[1..]))
  }

  ghost function End(cfg: Config, s: State, actions: seq<Action>): State
    requires IsRun(cfg, s, actions)
    decreases |actions|
  {
    if actions == [] then s else End(cfg, Step(cfg, s, actions[0]), actions[1..])
  }

  // ---------------------------------------------------------------- reachable states

  predicate IsRecent(n: Node) {
    !n.Idle? && n.recent
  }

  /** The state field is never 0 and only the script's threshold or a half-open admission
      sets it; a node only remembers such values. */
  ghost predicate NodeOk(n: Node) {
    (n.GetFailures? || n.GetLastFailure? || n.Decide?) ==> n.state in {1, 2}
  }

  ghost predicate Reachable(cfg: Config, s: State) {
    && s.hash.state in {None, Some(1), Some(2)}
    && OrZero(s.hash.probes) >= 0
    && OrZero(s.hash.failures) >= 0
    && (s.hash.state.None? ==> OrZero(s.hash.failures) < cfg.threshold)
    && forall n <- s.nodes :: NodeOk(n)
  }

  ghost predicate Initial(s: State) {
    s.hash == ABSENT && forall n <- s.nodes :: n.Idle?
  }

  lemma StepStaysReachable(cfg: Config, s: State, a: Action)
    requires Reachable(cfg, s) && Enabled(s, a) && cfg.threshold >= 1
    ensures Reachable(cfg, Step(cfg, s, a))
  {
    var s' := Step(cfg, s, a);
    forall n <- s'.nodes ensures NodeOk(n) {
      if n !in s.nodes && a.Advance? {
        assert NodeOk(s.nodes[a.i]);
      }
    }
  }

  lemma {:induction false} RunStaysReachable(cfg: Config, s: State, actions: seq<Action>)
    requires Reachable(cfg, s) && cfg.threshold >= 1 && IsRun(cfg, s, actions)
    ensures Reachable(cfg, End(cfg, s, actions))
    decreases |actions|
  {
    if actions != [] {
      StepStaysReachable(cfg, s, actions[0]);
      RunStaysReachable(cfg, Step(cfg, s, actions[0]), actions[1..]);
    }
  }

  /** An open breaker knows when its last failure was, and that is not in the future. */
  ghost predicate Stamped(s: State) {
    s.hash.state == Some(1) ==> s.hash.lastFailure.Some? && s.hash.lastFailure.value <= s.now
  }

  lemma {:induction false} RunStaysStamped(cfg: Config, s: State, actions: seq<Action>)
    requires Stamped(s) && IsRun(cfg, s, actions)
    ensures Stamped(End(cfg, s, actions))
    decreases |actions|
  {
    if actions != [] {
      RunStaysStamped(cfg, Step(cfg, s, actions[0]), actions[1..]);
    }
  }

  lemma WaitIsExact(cfg: Config, last: int, now: int)
    requires last <= now
    ensures Quotient(now - last, 1000) >= cfg.resetTimeout <==> now - last >= cfg.resetTimeout * 1000
  {
  }

  /** The timeout has passed: whole seconds are counted toward zero, so a timeout that is not
      positive has passed even for a failure less than a second in the future. */
  predicate HasPassed(cfg: Config, elapsed: int) {
    if cfg.resetTimeout > 0 then elapsed >= cfg.resetTimeout * 1000 else elapsed > (cfg.resetTimeout - 1) * 1000
  }

  /** The verdict on any values the fields may have, whatever the clocks say: a closed breaker
      whose counter has reached the threshold is treated like an open one. */
  lemma VerdictIff(cfg: Config, state: int, failures: int, lastFailure: int, now: int)
    ensures var tripped := state == 1 || (state != 2 && failures >= cfg.threshold);
            ComputeState(cfg, state, failures, lastFailure, now)
            == if state == 2 || (tripped && HasPassed(cfg, now - lastFailure)) then HalfOpen
               else if tripped then Open
               else Closed
  {
    var elapsed := now - lastFailure;
    assert Quotient(elapsed, 1000) >= cfg.resetTimeout <==> HasPassed(cfg, elapsed);
  }

  /** In every reachable state the stored state field and the age of the last failure decide
      the verdict: closed without the field, open while it is 1 and the timeout has not
      passed, half-open otherwise. The read-time comparison of the counter with the threshold
      is never needed. */
  lemma StateFieldIsAuthoritative(cfg: Config, s: State, actions: seq<Action>)
    requires Initial(s) && cfg.threshold >= 1 && IsRun(cfg, s, actions)
    ensures var e := End(cfg, s, actions);
            var verdict :=
              ComputeState(cfg, OrZero(e.hash.state), OrZero(e.hash.failures), OrZero(e.hash.lastFailure), e.now);
            && (verdict.Closed? <==> e.hash.state.None?)
            && (verdict.Open? <==>
                  e.hash.state == Some(1) && e.now - OrZero(e.hash.lastFailure) < cfg.resetTimeout * 1000)
  {
    RunStaysReachable(cfg, s, actions);
    RunStaysStamped(cfg, s, actions);
    var e := End(cfg, s, actions);
    if e.hash.state == Some(1) {
      WaitIsExact(cfg, e.hash.lastFailure.value, e.now);
    }
  }

  // ---------------------------------------------------------------- the open breaker

  /** A stretch without recorded success or expiry. */
  ghost predicate NoReset(actions: seq<Action>) {
    forall a <- actions :: !a.RecordSuccess? && !a.Expire?
  }

  /** A call that can only have read an open breaker whose last failure is not before
      `since`. */
  predicate ReadsOpen(n: Node, since: int) {
    match n
    case Idle => true
    case GetState(_) => true
    case GetFailures(_, state) => state == 1
    case GetLastFailure(_, state, _) => state == 1
    case Decide(_, state, _, last) => state == 1 && last >= since
    case _ => false
  }

  ghost predicate OpenSince(s: State, since: int) {
    && s.hash.state == Some(1)
    && s.hash.lastFailure.Some? && s.hash.lastFailure.value >= since
    && since <= s.now
    && forall n <- s.nodes :: ReadsOpen(n, since)
  }

  lemma TooEarly(cfg: Config, since: int, last: int, now: int)
    requires since <= now && since <= last && now - since < cfg.resetTimeout * 1000
    ensures Quotient(now - last, 1000) < cfg.resetTimeout
  {
  }

  lemma StepStaysOpen(cfg: Config, s: State, a: Action, since: int)
    requires OpenSince(s, since) && s.now - since < cfg.resetTimeout * 1000
    requires Enabled(s, a) && !a.RecordSuccess? && !a.Expire?
    ensures OpenSince(Step(cfg, s, a), since) && Step(cfg, s, a).admitted == s.admitted
  {
    var s' := Step(cfg, s, a);
    if a.Advance? {
      assert s.nodes[a.i] in s.nodes;
      if s.nodes[a.i].Decide? {
        TooEarly(cfg, since, s.nodes[a.i].lastFailure, s.now);
      }
    }
    forall n <- s'.nodes ensures ReadsOpen(n, since) {
      assert n in s.nodes || n == GetState(true) || (a.Advance? && n == s'.nodes[a.i]);
    }
  }

  lemma {:induction false} ClockAdvances(cfg: Config, s: State, actions: seq<Action>)
    requires IsRun(cfg, s, actions)
    ensures s.now <= End(cfg, s, actions).now
    decreases |actions|
  {
    if actions != [] {
      ClockAdvances(cfg, Step(cfg, s, actions[0]), actions[1..]);
    }
  }

  lemma {:induction false} RunStaysOpen(cfg: Config, s: State, actions: seq<Action>, since: int)
    requires OpenSince(s, since) && IsRun(cfg, s, actions) && NoReset(actions)
    requires End(cfg, s, actions).now - since < cfg.resetTimeout * 1000
    ensures OpenSince(End(cfg, s, actions), since) && End(cfg, s, actions).admitted == s.admitted
    decreases |actions|
  {
    if actions != [] {
      ClockAdvances(cfg, s, actions);
      StepStaysOpen(cfg, s, actions[0], since);
      RunStaysOpen(cfg, Step(cfg, s, actions[0]), actions[1..], since);
    }
  }

  /** When the wait of an open breaker began: at its last failure, or now should that failure
      bear a later time. */
  function WaitingSince(s: State): int
    requires s.hash.lastFailure.Some?
  {
    if s.hash.lastFailure.value < s.now then s.hash.lastFailure.value else s.now
  }

  /** An open breaker refuses every call until the reset timeout has passed since its last
      failure: whatever calls and further failures interleave, none is admitted and the
      state field stays 1. */
  lemma OpenRefusesUntilTimeout(cfg: Config, s: State, actions: seq<Action>)
    requires s.hash.state == Some(1) && s.hash.lastFailure.Some? && forall n <- s.nodes :: n.Idle?
    requires IsRun(cfg, s, actions) && NoReset(actions)
    requires End(cfg, s, actions).now - WaitingSince(s) < cfg.resetTimeout * 1000
    ensures End(cfg, s, actions).admitted == s.admitted && End(cfg, s, actions).hash.state == Some(1)
  {
    RunStaysOpen(cfg, s, actions, WaitingSince(s));
  }

  /** Every failure that leaves the state field set starts the wait anew: the one that
      reaches the threshold, one while the breaker is open, and one of a half-open probe. */
  lemma FailureStartsTheWait(cfg: Config, s: State, actions: seq<Action>)
    requires s.hash.state in {None, Some(1), Some(2)} && forall n <- s.nodes :: n.Idle?
    requires s.hash.state.Some? || OrZero(s.hash.failures) + 1 >= cfg.threshold
    requires IsRun(cfg, Step(cfg, s, RecordFailure), actions) && NoReset(actions)
    requires End(cfg, Step(cfg, s, RecordFailure), actions).now - s.now < cfg.resetTimeout * 1000
    ensures var e := End(cfg, Step(cfg, s, RecordFailure), actions); e.admitted == s.admitted && e.hash.state == Some(1)
  {
    OpenRefusesUntilTimeout(cfg, Step(cfg, s, RecordFailure), actions);
  }

  function FailuresIn(actions: seq<Action>): nat {
    if actions == [] then 0 else (if actions[0].RecordFailure? then 1 else 0) + FailuresIn(actions[1..])
  }

  /** A call that has read the state field and may still write it. */
  predicate MayReopen(n: Node) {
    n.GetFailures? || n.GetLastFailure? || n.Decide? || n.GetProbes? || n.SetHalfOpen?
  }

  /** The state field is there exactly when the threshold has been counted, and while it is
      not no call can write it. */
  ghost predicate Counting(cfg: Config, s: State) {
    && OrZero(s.hash.failures) >= 0
    && (s.hash.state.Some? <==> OrZero(s.hash.failures) >= cfg.threshold)
    && (s.hash.state.None? ==> forall n <- s.nodes :: !MayReopen(n))
  }

  lemma StepKeepsCounting(cfg: Config, s: State, a: Action)
    requires Counting(cfg, s) && Enabled(s, a) && !a.RecordSuccess? && !a.Expire?
    ensures Counting(cfg, Step(cfg, s, a))
    ensures OrZero(Step(cfg, s, a).hash.failures) == OrZero(s.hash.failures) + if a.RecordFailure? then 1 else 0
  {
    var s' := Step(cfg, s, a);
    if a.Advance? {
      assert s.nodes[a.i] in s.nodes;
    }
    if s'.hash.state.None? {
      forall n <- s'.nodes ensures !MayReopen(n) {
        assert n in s.nodes || n == GetState(true) || (a.Advance? && n == s'.nodes[a.i]);
      }
    }
  }

  /** In every run without a reset that starts closed and without a stale reader, whatever
      else the nodes do, the breaker is open or half-open exactly when at least `threshold`
      failures have been recorded. */
  lemma {:induction false} OpensAtThreshold(cfg: Config, s: State, actions: seq<Action>)
    requires Counting(cfg, s) && IsRun(cfg, s, actions) && NoReset(actions)
    ensures var e, count := End(cfg, s, actions), OrZero(s.hash.failures) + FailuresIn(actions);
            OrZero(e.hash.failures) == count && (e.hash.state.Some? <==> count >= cfg.threshold)
    decreases |actions|
  {
    if actions != [] {
      StepKeepsCounting(cfg, s, actions[0]);
      OpensAtThreshold(cfg, Step(cfg, s, actions[0]), actions[1..]);
    }
  }

  lemma InitialIsCounting(cfg: Config, s: State)
    requires Initial(s) && cfg.threshold >= 1
    ensures Counting(cfg, s)
  {
  }

  // ---------------------------------------------------------------- the half-open budget

  ghost predicate Tripped(h: Hash) {
    h.state in {Some(1), Some(2)}
  }

  /** A recent call that passed the probe check and has not been counted yet. */
  predicate IsCleared(n: Node) {
    (n.SetHalfOpen? || n.CountProbe?) && n.recent
  }

  /** A recent call that was counted and has not answered yet. */
  predicate IsCounted(n: Node) {
    n.Extend? && n.recent
  }

  ghost function Cleared(nodes: seq<Node>): set<nat> {
    set i: nat | i < |nodes| && IsCleared(nodes[i])
  }

  ghost function Counted(nodes: seq<Node>): set<nat> {
    set i: nat | i < |nodes| && IsCounted(nodes[i])
  }

  ghost function Budget(cfg: Config, n: nat): int {
    if cfg.halfOpenMax <= 0 then 0 else cfg.halfOpenMax + n - 1
  }

  ghost predicate WithinBudget(cfg: Config, s: State) {
    && Tripped(s.hash)
    && (forall n <- s.nodes :: IsRecent(n) ==> NodeOk(n))
    && s.admitted + |Counted(s.nodes)| <= OrZero(s.hash.probes)
    && s.admitted + |Counted(s.nodes)| + |Cleared(s.nodes)| <= Budget(cfg, |s.nodes|)
  }

  lemma {:induction false} RangeSize(a: set<nat>, n: nat)
    requires forall i <- a :: i < n
    ensures |a| <= n
  {
    if n > 0 {
      RangeSize(a - {n - 1}, n - 1);
    } else {
      assert a == {};
    }
  }

  lemma SizeWithout(a: set<nat>, i: nat)
    ensures |a| == |a - {i}| + if i in a then 1 else 0
  {
    if i in a {
      assert a == (a - {i}) + {i};
    } else {
      assert a == a - {i};
    }
  }

  /** How replacing one node changes the two counts. */
  lemma Recount(nodes: seq<Node>, i: nat, n: Node)
    requires i < |nodes|
    ensures |Cleared(nodes[i := n])|
            == |Cleared(nodes)| + (if IsCleared(n) then 1 else 0) - if IsCleared(nodes[i]) then 1 else 0
    ensures |Counted(nodes[i := n])|
            == |Counted(nodes)| + (if IsCounted(n) then 1 else 0) - if IsCounted(nodes[i]) then 1 else 0
    ensures |Cleared(nodes[i := n])| <= |nodes|
  {
    var after := nodes[i := n];
    assert Cleared(after) - {i} == Cleared(nodes) - {i};
    assert Counted(after) - {i} == Counted(nodes) - {i};
    SizeWithout(Cleared(after), i);
    SizeWithout(Cleared(nodes), i);
    SizeWithout(Counted(after), i);
    SizeWithout(Counted(nodes), i);
    RangeSize(Cleared(after), |nodes|);
  }

  lemma AdvanceKeepsNodesOk(cfg: Config, s: State, i: nat)
    requires Tripped(s.hash) && Enabled(s, Advance(i))
    requires forall n <- s.nodes :: IsRecent(n) ==> NodeOk(n)
    ensures forall n <- Step(cfg, s, Advance(i)).nodes :: IsRecent(n) ==> NodeOk(n)
  {
    var s' := Step(cfg, s, Advance(i));
    assert s.nodes[i] in s.nodes;
    forall m <- s'.nodes | IsRecent(m) ensures NodeOk(m) {
      assert m in s.nodes || m == s'.nodes[i];
    }
  }

  lemma AdvanceWithinBudget(cfg: Config, s: State, i: nat)
    requires WithinBudget(cfg, s) && Enabled(s, Advance(i))
    ensures WithinBudget(cfg, Step(cfg, s, Advance(i)))
  {
    var s' := Step(cfg, s, Advance(i));
    assert s.nodes[i] in s.nodes;
    assert s'.nodes == s.nodes[i := s'.nodes[i]];
    Recount(s.nodes, i, s'.nodes[i]);
    AdvanceKeepsNodesOk(cfg, s, i);
  }

  lemma StepWithinBudget(cfg: Config, s: State, a: Action)
    requires WithinBudget(cfg, s) && Enabled(s, a) && !a.RecordSuccess? && !a.Expire?
    ensures WithinBudget(cfg, Step(cfg, s, a))
  {
    var s' := Step(cfg, s, a);
    if a.Advance? {
      AdvanceWithinBudget(cfg, s, a.i);
    } else {
      assert Cleared(s'.nodes) == Cleared(s.nodes);
      assert Counted(s'.nodes) == Counted(s.nodes);
      forall m <- s'.nodes | IsRecent(m) ensures NodeOk(m) {
        assert m in s.nodes || m == GetState(true);
      }
    }
  }

  lemma {:induction false} RunWithinBudget(cfg: Config, s: State, actions: seq<Action>)
    requires WithinBudget(cfg, s) && IsRun(cfg, s, actions) && NoReset(actions)
    ensures WithinBudget(cfg, End(cfg, s, actions))
    decreases |actions|
  {
    if actions != [] {
      StepWithinBudget(cfg, s, actions[0]);
      RunWithinBudget(cfg, Step(cfg, s, actions[0]), actions[1..]);
    }
  }

  /** Calls that begin after the breaker tripped are admitted at most `halfOpenMax + n - 1`
      times by `n` nodes, whatever else is in flight, until a success is recorded or the
      key expires. */
  lemma HalfOpenBudget(cfg: Config, s: State, actions: seq<Action>)
    requires Tripped(s.hash) && OrZero(s.hash.probes) >= 0 && s.nodes != []
    requires s.admitted == 0 && forall n <- s.nodes :: !IsRecent(n)
    requires IsRun(cfg, s, actions) && NoReset(actions)
    ensures End(cfg, s, actions).admitted <= if cfg.halfOpenMax <= 0 then 0 else cfg.halfOpenMax + |s.nodes| - 1
  {
    assert Cleared(s.nodes) == {} && Counted(s.nodes) == {} by {
      assert forall i :: 0 <= i < |s.nodes| ==> s.nodes[i] in s.nodes;
    }
    RunWithinBudget(cfg, s, actions);
    RunKeepsNodes(cfg, s, actions);
  }

  lemma {:induction false} RunKeepsNodes(cfg: Config, s: State, actions: seq<Action>)
    requires IsRun(cfg, s, actions)
    ensures |End(cfg, s, actions).nodes| == |s.nodes|
    decreases |actions|
  {
    if actions != [] {
      RunKeepsNodes(cfg, Step(cfg, s, actions[0]), actions[1..]);
    }
  }

  /** Once the probes are used up, no later call is admitted before a reset: a failed probe
      does not give its slot back. */
  lemma ExhaustedBudgetStaysExhausted(cfg: Config, s: State, actions: seq<Action>)
    requires Tripped(s.hash) && OrZero(s.hash.probes) >= cfg.halfOpenMax
    requires s.admitted == 0 && forall n <- s.nodes :: !IsRecent(n)
    requires IsRun(cfg, s, actions) && NoReset(actions)
    ensures End(cfg, s, actions).admitted == 0
  {
    RunStaysExhausted(cfg, s, actions);
  }

  ghost predicate Exhausted(cfg: Config, s: State) {
    && Tripped(s.hash) && OrZero(s.hash.probes) >= cfg.halfOpenMax && s.admitted == 0
    && forall n <- s.nodes :: IsRecent(n) ==> NodeOk(n) && !n.SetHalfOpen? && !n.CountProbe? && !n.Extend?
  }

  lemma {:induction false} RunStaysExhausted(cfg: Config, s: State, actions: seq<Action>)
    requires Exhausted(cfg, s) && IsRun(cfg, s, actions) && NoReset(actions)
    ensures End(cfg, s, actions).admitted == 0
    decreases |actions|
  {
    if actions != [] {
      var s' := Step(cfg, s, actions[0]);
      if actions[0].Advance? {
        assert s.nodes[actions[0].i] in s.nodes;
      }
      forall m <- s'.nodes | IsRecent(m) ensures NodeOk(m) && !m.SetHalfOpen? && !m.CountProbe? && !m.Extend? {
        assert m in s.nodes || m == GetState(true) || (actions[0].Advance? && m == s'.nodes[actions[0].i]);
      }
      RunStaysExhausted(cfg, s', actions[1..]);
    }
  }

  // ---------------------------------------------------------------- the budget is reached

  ghost predicate Reaches(cfg: Config, s: State, e: State) {
    exists actions :: IsRun(cfg, s, actions) && NoReset(actions) && End(cfg, s, actions) == e
  }

  lemma {:induction false} RunThen(cfg: Config, s: State, a: seq<Action>, b: seq<Action>)
    requires IsRun(cfg, s, a) && IsRun(cfg, End(cfg, s, a), b)
    ensures IsRun(cfg, s, a + b) && End(cfg, s, a + b) == End(cfg, End(cfg, s, a), b)
    decreases |a|
  {
    if a == [] {
      assert a + b == b;
    } else {
      assert (a + b)[1..] == a[1..] + b;
      RunThen(cfg, Step(cfg, s, a[0]), a[1..], b);
    }
  }

  lemma ReachesThen(cfg: Config, s: State, m: State, e: State)
    requires Reaches(cfg, s, m) && Reaches(cfg, m, e)
    ensures Reaches(cfg, s, e)
  {
    var a :| IsRun(cfg, s, a) && NoReset(a) && End(cfg, s, a) == m;
    var b :| IsRun(cfg, m, b) && NoReset(b) && End(cfg, m, b) == e;
    RunThen(cfg, s, a, b);
    assert NoReset(a + b);
  }

  lemma ReachesByStep(cfg: Config, s: State, a: Action)
    requires Enabled(s, a) && !a.RecordSuccess? && !a.Expire?
    ensures Reaches(cfg, s, Step(cfg, s, a))
  {
    var actions := [a];
    assert actions[1..] == [];
    assert IsRun(cfg, Step(cfg, s, a), actions[1..]);
    assert IsRun(cfg, s, actions) && NoReset(actions);
    assert End(cfg, s, actions) == Step(cfg, s, a);
  }

  function At(s: State, i: nat, n: Node): State
    requires i < |s.nodes|
  {
    s.(nodes := s.nodes[i := n])
  }

  lemma Turn(cfg: Config, s: State, i: nat, from: Node, to: Node)
    requires i < |s.nodes| && !from.Idle? && Reaches(cfg, s, At(s, i, from))
    requires AdvanceStep(cfg, At(s, i, from), i) == At(s, i, to)
    ensures Reaches(cfg, s, At(s, i, to))
  {
    ReachesByStep(cfg, At(s, i, from), Advance(i));
    ReachesThen(cfg, s, At(s, i, from), At(s, i, to));
  }

  /** A call that reads the hash now takes the half-open path. */
  ghost predicate Probing(cfg: Config, h: Hash, now: int) {
    h.state.Some? && ComputeState(cfg, h.state.value, OrZero(h.failures), OrZero(h.lastFailure), now).HalfOpen?
  }

  /** With probes left, an idle node can get as far as being cleared. */
  lemma CanClear(cfg: Config, s: State, i: nat)
    requires Probing(cfg, s.hash, s.now) && OrZero(s.hash.probes) < cfg.halfOpenMax
    requires i < |s.nodes| && s.nodes[i].Idle?
    ensures Reaches(cfg, s, At(s, i, SetHalfOpen(true)))
  {
    var state, failures, last := s.hash.state.value, OrZero(s.hash.failures), OrZero(s.hash.lastFailure);
    ReachesByStep(cfg, s, Begin(i));
    Turn(cfg, s, i, GetState(true), GetFailures(true, state));
    Turn(cfg, s, i, GetFailures(true, state), GetLastFailure(true, state, failures));
    Turn(cfg, s, i, GetLastFailure(true, state, failures), Decide(true, state, failures, last));
    Turn(cfg, s, i, Decide(true, state, failures, last), GetProbes(true));
    Turn(cfg, s, i, GetProbes(true), SetHalfOpen(true));
  }

  function Granted(s: State, i: nat): State
    requires i < |s.nodes|
  {
    s.(hash := s.hash.(state := Some(2), probes := Some(OrZero(s.hash.probes) + 1)),
       nodes := s.nodes[i := Idle], admitted := s.admitted + 1)
  }

  lemma CanFinish(cfg: Config, s: State, i: nat)
    requires i < |s.nodes| && s.nodes[i] == SetHalfOpen(true)
    ensures Reaches(cfg, s, Granted(s, i))
  {
    var half := s.(hash := s.hash.(state := Some(2)));
    var counted := half.(hash := half.hash.(probes := Some(OrZero(s.hash.probes) + 1)));
    ReachesByStep(cfg, s, Advance(i));
    ReachesByStep(cfg, At(half, i, CountProbe(true)), Advance(i));
    ReachesThen(cfg, s, At(half, i, CountProbe(true)), At(counted, i, Extend(true)));
    ReachesByStep(cfg, At(counted, i, Extend(true)), Advance(i));
    ReachesThen(cfg, s, At(counted, i, Extend(true)), Granted(s, i));
  }

  lemma ReachesItself(cfg: Config, s: State)
    ensures Reaches(cfg, s, s)
  {
    assert IsRun(cfg, s, []) && NoReset([]) && End(cfg, s, []) == s;
  }

  /** All nodes idle, calls would probe, and `k` probes are counted so far. */
  ghost predicate IdleAt(cfg: Config, s: State, n: nat, k: int) {
    && Probing(cfg, s.hash, s.now)
    && OrZero(s.hash.probes) == k && s.admitted == k && |s.nodes| == n
    && forall m <- s.nodes :: m.Idle?
  }

  lemma {:induction false} OneByOne(cfg: Config, s: State, n: nat, k: nat) returns (e: State)
    requires IdleAt(cfg, s, n, 0) && n >= 1 && k < cfg.halfOpenMax
    ensures Reaches(cfg, s, e) && IdleAt(cfg, e, n, k)
    decreases k
  {
    if k == 0 {
      e := s;
      ReachesItself(cfg, s);
    } else {
      var m := OneByOne(cfg, s, n, k - 1);
      var c := At(m, 0, SetHalfOpen(true));
      CanClear(cfg, m, 0);
      ReachesThen(cfg, s, m, c);
      e := Granted(c, 0);
      CanFinish(cfg, c, 0);
      ReachesThen(cfg, s, c, e);
    }
  }

  ghost predicate ClearedUpTo(s: State, c: nat) {
    c <= |s.nodes| && forall i :: 0 <= i < |s.nodes| ==> s.nodes[i] == if i < c then SetHalfOpen(true) else Idle
  }

  lemma {:induction false} AllClear(cfg: Config, s: State, c: nat) returns (e: State)
    requires Probing(cfg, s.hash, s.now) && OrZero(s.hash.probes) < cfg.halfOpenMax
    requires ClearedUpTo(s, 0) && c <= |s.nodes|
    ensures Reaches(cfg, s, e) && ClearedUpTo(e, c)
    ensures e.hash == s.hash && e.now == s.now && e.admitted == s.admitted && |e.nodes| == |s.nodes|
    decreases c
  {
    if c == 0 {
      e := s;
      ReachesItself(cfg, s);
    } else {
      var m := AllClear(cfg, s, c - 1);
      e := At(m, c - 1, SetHalfOpen(true));
      CanClear(cfg, m, c - 1);
      ReachesThen(cfg, s, m, e);
    }
  }

  lemma {:induction false} AllFinish(cfg: Config, s: State, c: nat) returns (e: State)
    requires ClearedUpTo(s, c)
    ensures Reaches(cfg, s, e) && e.admitted == s.admitted + c
    decreases c
  {
    if c == 0 {
      e := s;
      ReachesItself(cfg, s);
    } else {
      var m := Granted(s, c - 1);
      CanFinish(cfg, s, c - 1);
      e := AllFinish(cfg, m, c - 1);
      ReachesThen(cfg, s, m, e);
    }
  }

  lemma BudgetIsReachedFrom(cfg: Config, s: State)
    requires cfg.halfOpenMax >= 1 && s.nodes != [] && IdleAt(cfg, s, |s.nodes|, 0)
    ensures exists e :: Reaches(cfg, s, e) && e.admitted == cfg.halfOpenMax + |s.nodes| - 1
  {
    var n := |s.nodes|;
    var a := OneByOne(cfg, s, n, cfg.halfOpenMax - 1);
    assert forall i :: 0 <= i < |a.nodes| ==> a.nodes[i] in a.nodes;
    var b := AllClear(cfg, a, n);
    ReachesThen(cfg, s, a, b);
    var e := AllFinish(cfg, b, n);
    ReachesThen(cfg, s, b, e);
  }

  ghost function Failures(k: nat): seq<Action> {
    if k == 0 then [] else [RecordFailure] + Failures(k - 1)
  }

  lemma {:induction false} Trips(cfg: Config, s: State, k: nat)
    requires k >= 1 && s.hash.state.None? && OrZero(s.hash.failures) >= 0 && OrZero(s.hash.failures) + k == cfg.threshold
    ensures IsRun(cfg, s, Failures(k))
    ensures End(cfg, s, Failures(k)) == s.(hash := Hash(Some(1), Some(cfg.threshold), s.hash.probes, Some(s.now)))
    decreases k
  {
    assert Failures(k)[1..] == Failures(k - 1);
    var next := Step(cfg, s, RecordFailure);
    if k > 1 {
      Trips(cfg, next, k - 1);
    } else {
      assert Failures(0) == [];
    }
  }

  /** A new key, `threshold` failures, and the reset timeout. */
  ghost function Tripping(cfg: Config): seq<Action>
    requires cfg.threshold >= 1
  {
    Failures(cfg.threshold) + [Tick(Max(cfg.resetTimeout * 1000, 0))]
  }

  lemma TrippingWorks(cfg: Config, s: State)
    requires Initial(s) && s.admitted == 0 && cfg.threshold >= 1
    ensures IsRun(cfg, s, Tripping(cfg))
    ensures var tripped := End(cfg, s, Tripping(cfg));
            Tripped(tripped.hash) && IdleAt(cfg, tripped, |s.nodes|, 0)
  {
    var wait := Tick(Max(cfg.resetTimeout * 1000, 0));
    Trips(cfg, s, cfg.threshold);
    var open := End(cfg, s, Failures(cfg.threshold));
    var tripped := Step(cfg, open, wait);
    assert [wait][1..] == [];
    assert IsRun(cfg, tripped, [wait][1..]) && End(cfg, tripped, [wait][1..]) == tripped;
    assert IsRun(cfg, open, [wait]) && End(cfg, open, [wait]) == tripped;
    RunThen(cfg, s, Failures(cfg.threshold), [wait]);
    WaitedLongEnough(cfg, s.now, tripped.now);
  }

  /** The bound of `HalfOpenBudget` cannot be improved: for every number of nodes and every
      positive probe limit, a new key whose breaker trips and whose timeout passes goes on to
      a run that admits exactly that many calls. */
  lemma BudgetIsReached(cfg: Config, s: State)
    requires Initial(s) && s.nodes != [] && s.admitted == 0 && cfg.threshold >= 1 && cfg.halfOpenMax >= 1
    ensures IsRun(cfg, s, Tripping(cfg))
    ensures var tripped := End(cfg, s, Tripping(cfg));
            && Tripped(tripped.hash) && tripped.admitted == 0 && (forall n <- tripped.nodes :: n.Idle?)
            && exists e :: Reaches(cfg, tripped, e) && e.admitted == cfg.halfOpenMax + |s.nodes| - 1
  {
    TrippingWorks(cfg, s);
    BudgetIsReachedFrom(cfg, End(cfg, s, Tripping(cfg)));
  }

  // ---------------------------------------------------------------- does a success reset the breaker?

  /** Nothing but time and calls: no failure is recorded. */
  ghost predicate NoFailure(actions: seq<Action>) {
    forall a <- actions :: !a.RecordFailure?
  }

  ghost predicate StaysReset(s: State) {
    s.hash.state.None? && s.denied == 0 && forall n <- s.nodes :: !MayReopen(n)
  }

  lemma StepStaysReset(cfg: Config, s: State, a: Action)
    requires StaysReset(s) && Enabled(s, a) && !a.RecordFailure?
    ensures StaysReset(Step(cfg, s, a))
  {
    var s' := Step(cfg, s, a);
    if a.Advance? {
      assert s.nodes[a.i] in s.nodes;
    }
    forall m <- s'.nodes ensures !MayReopen(m) {
      assert m in s.nodes || m == GetState(true) || (a.Advance? && m == s'.nodes[a.i]);
    }
  }

  lemma {:induction false} RunStaysReset(cfg: Config, s: State, actions: seq<Action>)
    requires StaysReset(s) && IsRun(cfg, s, actions) && NoFailure(actions)
    ensures StaysReset(End(cfg, s, actions))
    decreases |actions|
  {
    if actions != [] {
      StepStaysReset(cfg, s, actions[0]);
      RunStaysReset(cfg, Step(cfg, s, actions[0]), actions[1..]);
    }
  }

  function Max(a: int, b: int): int {
    if a < b then b else a
  }

  /** Time enough for any remembered failure to be older than the reset timeout, and the
      commands the call still needs to write the state field. */
  ghost function Reopening(cfg: Config, s: State, i: nat): seq<Action>
    requires i < |s.nodes| && MayReopen(s.nodes[i])
  {
    var n := s.nodes[i];
    var last := if n.Decide? then n.lastFailure else 0;
    var wait := Max(cfg.resetTimeout * 1000, 0) + Max(last - s.now, 0) + Max(-s.now, 0);
    var a := Advance(i);
    [Tick(wait)] +
    if n.GetFailures? then [a, a, a, a, a]
    else if n.GetLastFailure? then [a, a, a, a]
    else if n.Decide? then [a, a, a]
    else if n.GetProbes? then [a, a]
    else [a]
  }

  lemma WaitedLongEnough(cfg: Config, last: int, now: int)
    requires now - last >= 0 && now - last >= cfg.resetTimeout * 1000
    ensures Quotient(now - last, 1000) >= cfg.resetTimeout
  {
  }

  /** A recorded success, and an expiry of the key, closes the breaker until the next failure if
      and only if no call that already read the state field is still in flight: such a call can write the
      half-open state back into the deleted key. */
  lemma SuccessResetsIffNoneInFlight(cfg: Config, s: State, a: Action)
    requires Reachable(cfg, s) && cfg.halfOpenMax >= 1 && s.denied == 0 && (a.RecordSuccess? || a.Expire?)
    ensures (forall actions :: IsRun(cfg, Step(cfg, s, a), actions) && NoFailure(actions) ==>
               var e := End(cfg, Step(cfg, s, a), actions);
               e.hash.state.None? && e.denied == 0)
            <==> forall n <- s.nodes :: !MayReopen(n)
  {
    var reset := Step(cfg, s, a);
    if forall n <- s.nodes :: !MayReopen(n) {
      forall actions | IsRun(cfg, reset, actions) && NoFailure(actions)
        ensures StaysReset(End(cfg, reset, actions))
      {
        RunStaysReset(cfg, reset, actions);
      }
    } else {
      var n :| n in s.nodes && MayReopen(n);
      var i :| 0 <= i < |s.nodes| && s.nodes[i] == n;
      ReopeningWorks(cfg, reset, i);
      var actions := Reopening(cfg, reset, i);
      assert IsRun(cfg, reset, actions) && NoFailure(actions);
      assert !End(cfg, reset, actions).hash.state.None?;
    }
  }

  lemma ReopeningWorks(cfg: Config, s: State, i: nat)
    requires s.hash == ABSENT && i < |s.nodes| && MayReopen(s.nodes[i]) && NodeOk(s.nodes[i]) && cfg.halfOpenMax >= 1
    ensures IsRun(cfg, s, Reopening(cfg, s, i)) && NoFailure(Reopening(cfg, s, i))
    ensures End(cfg, s, Reopening(cfg, s, i)).hash.state == Some(2)
  {
    var actions := Reopening(cfg, s, i);
    var later := Step(cfg, s, actions[0]);
    ReopensFrom(cfg, later, i, actions[1..]);
  }

  ghost predicate Waited(cfg: Config, s: State, last: int) {
    s.now >= last && s.now - last >= cfg.resetTimeout * 1000
  }

  lemma {:induction false} ReopensFrom(cfg: Config, s: State, i: nat, actions: seq<Action>)
    requires s.hash == ABSENT && i < |s.nodes| && MayReopen(s.nodes[i]) && NodeOk(s.nodes[i]) && cfg.halfOpenMax >= 1
    requires s.nodes[i].GetFailures? || s.nodes[i].GetLastFailure? ==> Waited(cfg, s, 0)
    requires s.nodes[i].Decide? ==> Waited(cfg, s, s.nodes[i].lastFailure)
    requires forall a <- actions :: a == Advance(i)
    requires |actions| == match s.nodes[i]
                          case GetFailures(_, _) => 5
                          case GetLastFailure(_, _, _) => 4
                          case Decide(_, _, _, _) => 3
                          case GetProbes(_) => 2
                          case _ => 1
    ensures IsRun(cfg, s, actions) && End(cfg, s, actions).hash.state == Some(2)
    decreases |actions|
  {
    assert actions[0] in actions;
    var s' := Step(cfg, s, actions[0]);
    if s.nodes[i].Decide? {
      WaitedLongEnough(cfg, s.nodes[i].lastFailure, s.now);
    }
    if !s.nodes[i].SetHalfOpen? {
      assert forall a <- actions[1..] :: a in actions;
      ReopensFrom(cfg, s', i, actions[1..]);
    } else {
      assert actions[1..] == [];
    }
  }

  // ---------------------------------------------------------------- every call is answered

  ghost function InFlight(nodes: seq<Node>): set<nat> {
    set i: nat | i < |nodes| && IsRecent(nodes[i])
  }

  function BeginsIn(actions: seq<Action>): nat {
    if actions == [] then 0 else (if actions[0].Begin? then 1 else 0) + BeginsIn(actions[1..])
  }

  lemma InFlightAfter(nodes: seq<Node>, i: nat, n: Node)
    requires i < |nodes|
    ensures |InFlight(nodes[i := n])|
            == |InFlight(nodes)| + (if IsRecent(n) then 1 else 0) - if IsRecent(nodes[i]) then 1 else 0
  {
    assert InFlight(nodes[i := n]) - {i} == InFlight(nodes) - {i};
    SizeWithout(InFlight(nodes[i := n]), i);
    SizeWithout(InFlight(nodes), i);
  }

  lemma StepAnswersOnce(cfg: Config, s: State, a: Action)
    requires Enabled(s, a)
    ensures var s' := Step(cfg, s, a);
            s'.admitted + s'.denied + |InFlight(s'.nodes)|
            == s.admitted + s.denied + |InFlight(s.nodes)| + if a.Begin? then 1 else 0
  {
    var s' := Step(cfg, s, a);
    if a.Advance? || a.Begin? {
      InFlightAfter(s.nodes, a.i, s'.nodes[a.i]);
      assert s'.nodes == s.nodes[a.i := s'.nodes[a.i]];
    }
  }

  /** Every call that begins is admitted or denied once, or still in flight. */
  lemma {:induction false} CallsAreAnsweredOnce(cfg: Config, s: State, actions: seq<Action>)
    requires IsRun(cfg, s, actions)
    ensures var e := End(cfg, s, actions);
            e.admitted + e.denied + |InFlight(e.nodes)|
            == s.admitted + s.denied + |InFlight(s.nodes)| + BeginsIn(actions)
    decreases |actions|
  {
    if actions != [] {
      StepAnswersOnce(cfg, s, actions[0]);
      CallsAreAnsweredOnce(cfg, Step(cfg, s, actions[0]), actions[1..]);
    }
  }
}
