/** What holds after every run of the control plane, and what its audit trail says. */
module ControlPlaneAudit {
  import opened ControlPlane
  import opened Wrappers

  // ---------------------------------------------------------------- replaying the audit

  type Statuses = map<Id, Status>

  /** What one entry says. The version `seed` counts as active from its submission. */
  function Told(m: Statuses, e: Entry, seed: Option<Id>): Statuses {
    match e
    case SubmitEntry(id, _, _, _, _) => m[id := if seed == Some(id) then Active else Pending]
    case ApproveEntry(id, _, _) => m[id := Approved]
    case RejectEntry(id, _, _) => m[id := Rejected]
    case ActivateEntry(id, _, previous) => Switched(m, previous, id)
    case RollbackEntry(id, _, previous, _) => Switched(m, previous, id)
  }

  function Switched(m: Statuses, previous: Id, id: Id): Statuses {
    (if previous == "" then m else m[previous := Superseded])[id := Active]
  }

  /** The statuses that the audit entries alone tell. */
  function Replay(audit: seq<Entry>, seed: Option<Id>): Statuses {
    if audit == [] then map[]
    else Told(Replay(audit[..|audit| - 1], seed), audit[|audit| - 1], seed)
  }

  function StatusesOf(st: Store): Statuses {
    map id <- st.versions :: st.versions[id].status
  }

  /** `id` is the one active version, or "" when there is none. */
  ghost predicate OnlyActive(m: Statuses, id: Id) {
    && (id != "" ==> id in m && m[id] == Active)
    && forall x <- m :: m[x] == Active ==> x == id
  }

  predicate Switches(e: Entry) {
    e.ActivateEntry? || e.RollbackEntry?
  }

  /** Every recorded previous version is the one that was active just before. */
  ghost predicate PreviousOk(audit: seq<Entry>, seed: Option<Id>) {
    forall i :: 0 <= i < |audit| && Switches(audit[i]) ==> OnlyActive(Replay(audit[..i], seed), audit[i].previous)
  }

  // ---------------------------------------------------------------- the invariant

  /** Only `seed` may have been approved by the person who submitted it. */
  ghost predicate DualApproval(st: Store, seed: Option<Id>) {
    forall id <- st.versions ::
      st.versions[id].status != Pending ==> seed == Some(id) || st.versions[id].reviewer != st.versions[id].submitter
  }

  ghost predicate Invariant(s: State, seed: Option<Id>) {
    && WellFormed(s.store)
    && (seed.Some? ==> seed.value in s.store.versions)
    && (s.store.versions == map[] ==> s.audit == [])
    && DualApproval(s.store, seed)
    && StatusesOf(s.store) == Replay(s.audit, seed)
    && PreviousOk(s.audit, seed)
  }

  /** The version a bootstrap installs. */
  function SeedAfter(s: State, c: Call, seed: Option<Id>): Option<Id> {
    match c
    case CallBootstrap(path, file, checks, id, now) =>
      var r := Bootstrap(s, path, file, checks, id, now).1;
      if r.Bootstrapped? then Some(r.id) else seed
    case _ => seed
  }

  function SeedOf(s: State, calls: seq<Call>, seed: Option<Id>): Option<Id>
    decreases |calls|
  {
    if calls == [] then seed else SeedOf(After(s, calls[0]), calls[1..], SeedAfter(s, calls[0], seed))
  }

  lemma OneMoreEntry(audit: seq<Entry>, e: Entry, seed: Option<Id>)
    requires PreviousOk(audit, seed)
    requires Switches(e) ==> OnlyActive(Replay(audit, seed), e.previous)
    ensures Replay(audit + [e], seed) == Told(Replay(audit, seed), e, seed)
    ensures PreviousOk(audit + [e], seed)
  {
    assert (audit + [e])[..|audit|] == audit;
    forall i | 0 <= i < |audit + [e]| && Switches((audit + [e])[i])
      ensures OnlyActive(Replay((audit + [e])[..i], seed), (audit + [e])[i].previous)
    {
      if i < |audit| {
        assert (audit + [e])[..i] == audit[..i];
      }
    }
  }

  lemma ActiveIsOnly(s: State, seed: Option<Id>)
    requires WellFormed(s.store) && StatusesOf(s.store) == Replay(s.audit, seed)
    ensures ActiveId(s.store) == s.store.activeId && OnlyActive(Replay(s.audit, seed), ActiveId(s.store))
  {
  }

  /** A change of the store that its audit entry tells keeps the invariant. */
  lemma Recorded(s: State, seed: Option<Id>, st: Store, e: Entry)
    requires Invariant(s, seed)
    requires WellFormed(st) && DualApproval(st, seed) && st.versions != map[] && s.store.versions.Keys <= st.versions.Keys
    requires StatusesOf(st) == Told(StatusesOf(s.store), e, seed)
    requires Switches(e) ==> OnlyActive(Replay(s.audit, seed), e.previous)
    ensures Invariant(State(st, s.audit + [e]), seed)
  {
    OneMoreEntry(s.audit, e, seed);
  }

  lemma StatusAfter(st: Store, id: Id, rec: Record)
    ensures StatusesOf(st.(versions := st.versions[id := rec])) == StatusesOf(st)[id := rec.status]
  {
  }

  lemma InsertKeeps(s: State, seed: Option<Id>, id: Id, rec: Record, e: Entry)
    requires Invariant(s, seed) && id != "" && id !in s.store.versions && rec.status == Pending
    requires e.SubmitEntry? && e.id == id
    ensures Invariant(State(s.store.(versions := s.store.versions[id := rec]), s.audit + [e]), seed)
  {
    var st := s.store.(versions := s.store.versions[id := rec]);
    assert id in st.versions;
    StatusAfter(s.store, id, rec);
    Recorded(s, seed, st, e);
  }

  lemma SubmitKeeps(s: State, seed: Option<Id>, b: Bundle, validateOnly: bool, id: Id, now: int)
    requires Invariant(s, seed)
    ensures Invariant(Submit(s, b, validateOnly, id, now).0, seed)
  {
    if Submit(s, b, validateOnly, id, now).0 != s {
      var rec := NewRecord(b, now);
      InsertKeeps(s, seed, id, rec, SubmitEntry(id, rec.sha, |b.content|, b.submitter, b.comment));
    }
  }

  lemma ReviewedKeeps(s: State, seed: Option<Id>, id: Id, status: Status, reviewer: string, comment: string, now: int, e: Entry)
    requires Invariant(s, seed) && id in s.store.versions && s.store.versions[id].submitter != reviewer
    requires s.store.versions[id].status != Active && (status == Approved || status == Rejected)
    requires e == if status == Approved then ApproveEntry(id, reviewer, comment) else RejectEntry(id, reviewer, comment)
    ensures Invariant(State(SetStatus(s.store, id, status, reviewer, comment, now), s.audit + [e]), seed)
  {
    var st := SetStatus(s.store, id, status, reviewer, comment, now);
    assert id in st.versions;
    StatusAfter(s.store, id, st.versions[id]);
    Recorded(s, seed, st, e);
  }

  lemma ReviewKeeps(s: State, seed: Option<Id>, id: Id, reviewer: string, comment: string, approve: bool, now: int)
    requires Invariant(s, seed)
    ensures Invariant(Review(s, id, reviewer, comment, approve, now).0, seed)
  {
    var t := Review(s, id, reviewer, comment, approve, now).0;
    if t != s {
      ReviewedKeeps(s, seed, id, if approve then Approved else Rejected, reviewer, comment, now, t.audit[|s.audit|]);
    }
  }

  lemma PromoteStatuses(st: Store, id: Id, activator: string, now: int)
    requires WellFormed(st) && id in st.versions
    requires st.versions[id].status == Approved || st.versions[id].status == Superseded
    ensures StatusesOf(Promote(st, id, activator, now).value) == Switched(StatusesOf(st), st.activeId, id)
  {
    PromoteShape(st, id, activator, now);
  }

  lemma PromoteKeepsApproval(st: Store, seed: Option<Id>, id: Id, activator: string, now: int)
    requires WellFormed(st) && id in st.versions && DualApproval(st, seed)
    requires st.versions[id].status == Approved || st.versions[id].status == Superseded
    ensures DualApproval(Promote(st, id, activator, now).value, seed)
  {
    PromoteShape(st, id, activator, now);
  }

  lemma RollbackToSelfKeeps(s: State, seed: Option<Id>, id: Id, e: Entry)
    requires Invariant(s, seed) && id in s.store.versions && s.store.versions[id].status == Active
    requires e.RollbackEntry? && e.id == id && e.previous == ActiveId(s.store)
    ensures Invariant(State(s.store, s.audit + [e]), seed)
  {
    ActiveIsOnly(s, seed);
    assert Switched(StatusesOf(s.store), id, id) == StatusesOf(s.store);
    Recorded(s, seed, s.store, e);
  }

  lemma PromotedKeeps(s: State, seed: Option<Id>, id: Id, activator: string, now: int, e: Entry)
    requires Invariant(s, seed) && id in s.store.versions
    requires s.store.versions[id].status == Approved || s.store.versions[id].status == Superseded
    requires Switches(e) && e.id == id && e.previous == ActiveId(s.store)
    ensures Promote(s.store, id, activator, now).Some?
    ensures Invariant(State(Promote(s.store, id, activator, now).value, s.audit + [e]), seed)
  {
    var st := Promote(s.store, id, activator, now).value;
    ActiveIsOnly(s, seed);
    PromoteShape(s.store, id, activator, now);
    PromoteStatuses(s.store, id, activator, now);
    PromoteKeepsApproval(s.store, seed, id, activator, now);
    PromoteStaysWellFormed(s.store, id, activator, now);
    Recorded(s, seed, st, e);
  }

  lemma ActivateKeeps(s: State, seed: Option<Id>, id: Id, activator: string, now: int)
    requires Invariant(s, seed)
    ensures Invariant(ActivateVersion(s, id, activator, now).0, seed)
  {
    if ActivateVersion(s, id, activator, now).0 != s {
      PromotedKeeps(s, seed, id, activator, now, ActivateEntry(id, activator, ActiveId(s.store)));
    }
  }

  lemma RollbackKeeps(s: State, seed: Option<Id>, id: Id, actor: string, comment: string, emergency: bool, now: int)
    requires Invariant(s, seed)
    ensures Invariant(Rollback(s, id, actor, comment, emergency, now).0, seed)
  {
    var e := RollbackEntry(id, actor, ActiveId(s.store), comment);
    if Rollback(s, id, actor, comment, emergency, now).0 != s {
      if s.store.versions[id].status == Active {
        RollbackToSelfKeeps(s, seed, id, e);
      } else {
        PromotedKeeps(s, seed, id, actor, now, e);
      }
    }
  }

  lemma BootstrapKeeps(s: State, seed: Option<Id>, path: string, file: Option<string>, checks: Checks, id: Id, now: int)
    requires Invariant(s, seed)
    ensures var (t, r) := Bootstrap(s, path, file, checks, id, now);
            Invariant(t, if r.Bootstrapped? then Some(r.id) else seed)
  {
    var (t, r) := Bootstrap(s, path, file, checks, id, now);
    BootstrapShape(s, path, file, checks, id, now);
    if r.Bootstrapped? {
      var e := t.audit[0];
      assert t.audit == [e];
      assert t.audit[..0] == [];
      assert Replay(t.audit, Some(id)) == Told(map[], e, Some(id));
      assert StatusesOf(t.store) == map[id := Active];
    }
  }

  lemma StepKeepsInvariant(s: State, seed: Option<Id>, c: Call)
    requires Invariant(s, seed)
    ensures Invariant(After(s, c), SeedAfter(s, c, seed))
  {
    match c
    case CallSubmit(b, validateOnly, id, now) => SubmitKeeps(s, seed, b, validateOnly, id, now);
    case CallReview(id, actor, comment, approve, now) => ReviewKeeps(s, seed, id, actor, comment, approve, now);
    case CallActivate(id, actor, now) => ActivateKeeps(s, seed, id, actor, now);
    case CallRollback(id, actor, comment, emergency, now) => RollbackKeeps(s, seed, id, actor, comment, emergency, now);
    case CallBootstrap(path, file, checks, id, now) => BootstrapKeeps(s, seed, path, file, checks, id, now);
  }

  lemma {:induction false} RunKeepsInvariant(s: State, seed: Option<Id>, calls: seq<Call>)
    requires Invariant(s, seed)
    ensures Invariant(End(s, calls), SeedOf(s, calls, seed))
    decreases |calls|
  {
    if calls != [] {
      StepKeepsInvariant(s, seed, calls[0]);
      RunKeepsInvariant(After(s, calls[0]), SeedAfter(s, calls[0], seed), calls[1..]);
    }
  }

  lemma EmptyIsFine()
    ensures Invariant(EMPTY, None)
  {
    assert StatusesOf(EMPTY.store) == map[];
  }

  // ---------------------------------------------------------------- every run

  ghost predicate NoBootstrap(calls: seq<Call>) {
    forall c <- calls :: !c.CallBootstrap?
  }

  lemma {:induction false} NoSeed(s: State, calls: seq<Call>)
    requires NoBootstrap(calls)
    ensures SeedOf(s, calls, None) == None
    decreases |calls|
  {
    if calls != [] {
      assert calls[0] in calls;
      NoSeed(After(s, calls[0]), calls[1..]);
    }
  }

  /** At most one version is active, and the store's active id names it; all versions that
      went past review were reviewed by someone else, save at most the bootstrap one. */
  lemma LifeCycleHolds(calls: seq<Call>)
    ensures var st, seed := End(EMPTY, calls).store, SeedOf(EMPTY, calls, None);
            WellFormed(st) && DualApproval(st, seed) && (NoBootstrap(calls) ==> seed == None)
  {
    EmptyIsFine();
    RunKeepsInvariant(EMPTY, None, calls);
    if NoBootstrap(calls) {
      NoSeed(EMPTY, calls);
    }
  }

  /** A rejected version stays rejected and no version is ever dropped or rewritten. */
  lemma {:induction false} RejectedIsFinal(s: State, calls: seq<Call>, id: Id)
    requires WellFormed(s.store) && id in s.store.versions
    ensures var t := End(s, calls);
            && id in t.store.versions
            && SameSubmission(s.store.versions[id], t.store.versions[id])
            && (s.store.versions[id].status == Rejected ==> t.store.versions[id].status == Rejected)
    decreases |calls|
  {
    if calls != [] {
      StepMovesLegally(s, calls[0], id);
      StepKeepsWellFormed(s, calls[0]);
      RejectedIsFinal(After(s, calls[0]), calls[1..], id);
    }
  }

  /** Without a bootstrap the audit trail alone rebuilds the status of every version, and
      each recorded previous version is the one that the trail so far shows as active. */
  lemma AuditTellsAll(calls: seq<Call>)
    requires NoBootstrap(calls)
    ensures var s := End(EMPTY, calls);
            Replay(s.audit, None) == StatusesOf(s.store) && PreviousOk(s.audit, None)
  {
    EmptyIsFine();
    RunKeepsInvariant(EMPTY, None, calls);
    NoSeed(EMPTY, calls);
  }

  // ---------------------------------------------------------------- the trail and the store

  /** A call records at most one entry; if it switches versions, it names the version that
      was active when the call came. */
  lemma StepAppends(s: State, c: Call)
    requires WellFormed(s.store)
    ensures var audit := After(s, c).audit;
            && s.audit <= audit && |audit| <= |s.audit| + 1
            && (|audit| > |s.audit| && Switches(audit[|s.audit|]) ==> audit[|s.audit|].previous == s.store.activeId)
  {
    match c
    case CallBootstrap(path, file, checks, id, now) => BootstrapShape(s, path, file, checks, id, now);
    case _ =>
  }

  lemma {:induction false} RunAppends(s: State, calls: seq<Call>)
    requires WellFormed(s.store)
    ensures s.audit <= End(s, calls).audit
    decreases |calls|
  {
    if calls != [] {
      StepAppends(s, calls[0]);
      StepKeepsWellFormed(s, calls[0]);
      RunAppends(After(s, calls[0]), calls[1..]);
    }
  }

  /** Call number `i` recorded entry number `j`, and the entry names the one version that
      was active in the store just before that call. */
  ghost predicate RecordedBy(s: State, calls: seq<Call>, i: nat, j: nat) {
    && i < |calls| && j < |End(s, calls).audit| && Switches(End(s, calls).audit[j])
    && var before := End(s, calls[..i]);
       && |before.audit| == j < |After(before, calls[i]).audit|
       && OnlyActive(StatusesOf(before.store), End(s, calls).audit[j].previous)
  }

  lemma RecordedFirst(s: State, calls: seq<Call>, j: nat)
    requires WellFormed(s.store) && calls != []
    requires j == |s.audit| < |After(s, calls[0]).audit| && After(s, calls[0]).audit <= End(s, calls).audit
    requires Switches(End(s, calls).audit[j])
    ensures RecordedBy(s, calls, 0, j)
  {
    StepAppends(s, calls[0]);
    assert calls[..0] == [];
    assert After(s, calls[0]).audit[j] == End(s, calls).audit[j];
  }

  lemma RecordedLater(s: State, calls: seq<Call>, i: nat, j: nat)
    requires calls != [] && RecordedBy(After(s, calls[0]), calls[1..], i, j)
    ensures RecordedBy(s, calls, i + 1, j)
  {
    assert calls[..i + 1][1..] == calls[1..][..i];
  }

  lemma {:induction false} SwitchWasRecorded(s: State, calls: seq<Call>, j: nat)
    requires WellFormed(s.store) && |s.audit| <= j < |End(s, calls).audit| && Switches(End(s, calls).audit[j])
    ensures exists i: nat :: RecordedBy(s, calls, i, j)
    decreases |calls|
  {
    if calls != [] {
      var t := After(s, calls[0]);
      StepAppends(s, calls[0]);
      StepKeepsWellFormed(s, calls[0]);
      RunAppends(t, calls[1..]);
      if j < |t.audit| {
        RecordedFirst(s, calls, j);
      } else {
        SwitchWasRecorded(t, calls[1..], j);
        var i: nat :| RecordedBy(t, calls[1..], i, j);
        RecordedLater(s, calls, i, j);
      }
    }
  }

  /** In every run, bootstraps included, each switching entry was recorded by one call, and
      the previous version it names is the one the store had active just before. */
  lemma RecordedPreviousWasActive(calls: seq<Call>, j: nat)
    requires j < |End(EMPTY, calls).audit| && Switches(End(EMPTY, calls).audit[j])
    ensures exists i: nat :: RecordedBy(EMPTY, calls, i, j)
  {
    SwitchWasRecorded(EMPTY, calls, j);
  }

  // ---------------------------------------------------------------- who did what

  /** What the records tell about content and people, times aside. */
  datatype Story = Story(
    sha: string, size: nat, submitter: string, comment: string, reviewer: string, remark: string, activator: string)

  type Stories = map<Id, Story>

  function StoryOf(rec: Record): Story {
    Story(rec.sha, |rec.content|, rec.submitter, rec.submitterComment, rec.reviewer, rec.reviewerComment, rec.activator)
  }

  function StoriesOf(st: Store): Stories {
    map id <- st.versions :: StoryOf(st.versions[id])
  }

  /** What one entry adds. A rollback to the active version activates nothing. */
  function Retell(m: Stories, e: Entry): Stories {
    match e
    case SubmitEntry(id, sha, size, submitter, comment) => m[id := Story(sha, size, submitter, comment, "", "", "")]
    case ApproveEntry(id, reviewer, remark) => Reviewed(m, id, reviewer, remark)
    case RejectEntry(id, reviewer, remark) => Reviewed(m, id, reviewer, remark)
    case ActivateEntry(id, activator, _) => ActivatedBy(m, id, activator)
    case RollbackEntry(id, actor, previous, _) => if previous == id then m else ActivatedBy(m, id, actor)
  }

  function Reviewed(m: Stories, id: Id, reviewer: string, remark: string): Stories {
    if id in m then m[id := m[id].(reviewer := reviewer, remark := remark)] else m
  }

  function ActivatedBy(m: Stories, id: Id, activator: string): Stories {
    if id in m then m[id := m[id].(activator := activator)] else m
  }

  /** The stories that the audit entries alone tell. */
  function Retold(audit: seq<Entry>): Stories {
    if audit == [] then map[] else Retell(Retold(audit[..|audit| - 1]), audit[|audit| - 1])
  }

  lemma OneMoreTold(audit: seq<Entry>, e: Entry)
    ensures Retold(audit + [e]) == Retell(Retold(audit), e)
  {
    assert (audit + [e])[..|audit|] == audit;
  }

  lemma StoryAfter(st: Store, id: Id, rec: Record, active: Id)
    ensures StoriesOf(Store(st.versions[id := rec], active)) == StoriesOf(st)[id := StoryOf(rec)]
  {
  }

  lemma PromoteStories(st: Store, id: Id, activator: string, now: int)
    requires WellFormed(st) && id in st.versions
    requires st.versions[id].status == Approved || st.versions[id].status == Superseded
    ensures StoriesOf(Promote(st, id, activator, now).value) == ActivatedBy(StoriesOf(st), id, activator)
  {
    PromoteShape(st, id, activator, now);
  }

  ghost predicate ToldByTrail(s: State) {
    WellFormed(s.store) && StoriesOf(s.store) == Retold(s.audit)
  }

  lemma SubmitIsTold(s: State, b: Bundle, validateOnly: bool, id: Id, now: int)
    requires ToldByTrail(s)
    ensures var t := Submit(s, b, validateOnly, id, now).0; StoriesOf(t.store) == Retold(t.audit)
  {
    var t := Submit(s, b, validateOnly, id, now).0;
    if t != s {
      OneMoreTold(s.audit, t.audit[|s.audit|]);
      StoryAfter(s.store, id, NewRecord(b, now), s.store.activeId);
    }
  }

  lemma ReviewEffect(s: State, id: Id, reviewer: string, comment: string, approve: bool, now: int)
    returns (rec: Record)
    requires Review(s, id, reviewer, comment, approve, now).0 != s
    ensures id in s.store.versions
    ensures StoryOf(rec) == StoryOf(s.store.versions[id]).(reviewer := reviewer, remark := comment)
    ensures Review(s, id, reviewer, comment, approve, now).0
            == State(Store(s.store.versions[id := rec], s.store.activeId),
                     s.audit + [if approve then ApproveEntry(id, reviewer, comment)
                                else RejectEntry(id, reviewer, comment)])
  {
    rec := Review(s, id, reviewer, comment, approve, now).0.store.versions[id];
  }

  lemma ReviewIsTold(s: State, id: Id, reviewer: string, comment: string, approve: bool, now: int)
    requires ToldByTrail(s)
    ensures var t := Review(s, id, reviewer, comment, approve, now).0; StoriesOf(t.store) == Retold(t.audit)
  {
    var t := Review(s, id, reviewer, comment, approve, now).0;
    if t != s {
      var rec := ReviewEffect(s, id, reviewer, comment, approve, now);
      OneMoreTold(s.audit, if approve then ApproveEntry(id, reviewer, comment) else RejectEntry(id, reviewer, comment));
      StoryAfter(s.store, id, rec, s.store.activeId);
    }
  }

  lemma ActivationIsTold(s: State, id: Id, activator: string, now: int)
    requires ToldByTrail(s)
    ensures var t := ActivateVersion(s, id, activator, now).0; StoriesOf(t.store) == Retold(t.audit)
  {
    var t := ActivateVersion(s, id, activator, now).0;
    if t != s {
      OneMoreTold(s.audit, t.audit[|s.audit|]);
      PromoteStories(s.store, id, activator, now);
    }
  }

  lemma RollbackEffect(s: State, id: Id, actor: string, comment: string, emergency: bool, now: int)
    requires Rollback(s, id, actor, comment, emergency, now).0 != s
    ensures id in s.store.versions && s.store.versions[id].status in {Active, Superseded}
    ensures var t := Rollback(s, id, actor, comment, emergency, now).0;
            && t.audit == s.audit + [RollbackEntry(id, actor, ActiveId(s.store), comment)]
            && (s.store.versions[id].status == Active ==> t.store == s.store)
            && (s.store.versions[id].status == Superseded ==> Some(t.store) == Promote(s.store, id, actor, now))
  {
  }

  lemma RollbackIsTold(s: State, id: Id, actor: string, comment: string, emergency: bool, now: int)
    requires ToldByTrail(s)
    ensures var t := Rollback(s, id, actor, comment, emergency, now).0; StoriesOf(t.store) == Retold(t.audit)
  {
    var t := Rollback(s, id, actor, comment, emergency, now).0;
    if t != s {
      var e := RollbackEntry(id, actor, ActiveId(s.store), comment);
      OneMoreTold(s.audit, e);
      RollbackEffect(s, id, actor, comment, emergency, now);
      if s.store.versions[id].status == Superseded {
        PromoteStories(s.store, id, actor, now);
      }
    }
  }

  lemma StepIsTold(s: State, c: Call)
    requires ToldByTrail(s) && !c.CallBootstrap?
    ensures ToldByTrail(After(s, c))
  {
    StepKeepsWellFormed(s, c);
    match c
    case CallSubmit(b, validateOnly, id, now) => SubmitIsTold(s, b, validateOnly, id, now);
    case CallReview(id, actor, comment, approve, now) => ReviewIsTold(s, id, actor, comment, approve, now);
    case CallActivate(id, actor, now) => ActivationIsTold(s, id, actor, now);
    case CallRollback(id, actor, comment, emergency, now) => RollbackIsTold(s, id, actor, comment, emergency, now);
  }

  lemma {:induction false} RunIsTold(s: State, calls: seq<Call>)
    requires ToldByTrail(s) && NoBootstrap(calls)
    ensures ToldByTrail(End(s, calls))
    decreases |calls|
  {
    if calls != [] {
      assert calls[0] in calls;
      StepIsTold(s, calls[0]);
      RunIsTold(After(s, calls[0]), calls[1..]);
    }
  }

  /** Without a bootstrap the trail alone also rebuilds, for every version, the hash and the size
      of its content, who submitted, reviewed and last activated it, and what they said. */
  lemma AuditNamesPeople(calls: seq<Call>)
    requires NoBootstrap(calls)
    ensures var s := End(EMPTY, calls); Retold(s.audit) == StoriesOf(s.store)
  {
    assert StoriesOf(EMPTY.store) == map[];
    RunIsTold(EMPTY, calls);
  }

  // ---------------------------------------------------------------- with a bootstrap

  /** An entry that tells a status of `id` other than its submission. */
  predicate Names(e: Entry, id: Id) {
    !e.SubmitEntry? && (e.id == id || (Switches(e) && e.previous == id && id != ""))
  }

  /** Some entry after the submission of `id` tells its status. */
  predicate Settled(audit: seq<Entry>, id: Id) {
    audit != [] &&
    var e := audit[|audit| - 1];
    !(e.SubmitEntry? && e.id == id) && (Names(e, id) || Settled(audit[..|audit| - 1], id))
  }

  /** Two readings of the trail that differ, if at all, about `seed`: one has it pending
      where the other has it active. */
  ghost predicate DifferOnSeed(m: Statuses, n: Statuses, seed: Id, settled: bool) {
    && m.Keys == n.Keys
    && (forall id <- m :: id != seed ==> m[id] == n[id])
    && (seed in m ==> if settled then m[seed] == n[seed] else m[seed] == Pending && n[seed] == Active)
  }

  lemma ToldWithoutSeed(m: Statuses, n: Statuses, seed: Id, settled: bool, e: Entry)
    requires DifferOnSeed(m, n, seed, settled)
    ensures var settled' := !(e.SubmitEntry? && e.id == seed) && (Names(e, seed) || settled);
            DifferOnSeed(Told(m, e, None), Told(n, e, Some(seed)), seed, settled')
  {
  }

  lemma {:induction false} ReplayWithoutSeed(audit: seq<Entry>, seed: Id)
    ensures DifferOnSeed(Replay(audit, None), Replay(audit, Some(seed)), seed, Settled(audit, seed))
    decreases |audit|
  {
    if audit != [] {
      var rest := audit[..|audit| - 1];
      ReplayWithoutSeed(rest, seed);
      ToldWithoutSeed(Replay(rest, None), Replay(rest, Some(seed)), seed, Settled(rest, seed), audit[|audit| - 1]);
    }
  }

  /** In every run, bootstraps included, the audit trail is wrong about a version exactly
      when a bootstrap installed it and no later entry names it. */
  lemma AuditMissesOnlyTheBootstrap(calls: seq<Call>, id: Id)
    requires id in End(EMPTY, calls).store.versions
    ensures var s, seed := End(EMPTY, calls), SeedOf(EMPTY, calls, None);
            && id in Replay(s.audit, None)
            && (Replay(s.audit, None)[id] == s.store.versions[id].status
                <==> !(seed == Some(id) && !Settled(s.audit, id)))
  {
    var s, seed := End(EMPTY, calls), SeedOf(EMPTY, calls, None);
    EmptyIsFine();
    RunKeepsInvariant(EMPTY, None, calls);
    assert id in StatusesOf(s.store);
    if seed.Some? {
      ReplayWithoutSeed(s.audit, seed.value);
    }
  }

  /** What an accepted activation leaves behind. */
  lemma ActivationShape(s: State, id: Id, activator: string, now: int)
    requires WellFormed(s.store) && ActivateVersion(s, id, activator, now).1.Done?
    ensures var t := ActivateVersion(s, id, activator, now).0;
            && WellFormed(t.store) && t.store.activeId == id
            && StatusesOf(t.store) == Switched(StatusesOf(s.store), s.store.activeId, id)
  {
    StepKeepsWellFormed(s, CallActivate(id, activator, now));
    PromoteShape(s.store, id, activator, now);
    PromoteStatuses(s.store, id, activator, now);
  }

  lemma RollbackShape(s: State, id: Id, actor: string, comment: string, now: int)
    requires WellFormed(s.store) && id in s.store.versions && s.store.versions[id].status == Superseded
    ensures var (t, reply) := Rollback(s, id, actor, comment, false, now);
            && reply.Done? && t.store.activeId == id
            && StatusesOf(t.store) == Switched(StatusesOf(s.store), s.store.activeId, id)
  {
    PromoteShape(s.store, id, actor, now);
    PromoteStatuses(s.store, id, actor, now);
  }

  lemma SwitchedBack(m: Statuses, previous: Id, id: Id)
    requires previous in m && m[previous] == Active && id != previous && id != "" && previous != ""
    ensures Switched(Switched(m, previous, id), id, previous) == m[id := Superseded]
  {
  }

  /** Rolling back to the version that an activation replaced makes it active again and
      leaves every other version as it was, the replaced one aside. */
  lemma RollbackUndoesActivation(s: State, id: Id, activator: string, now: int, actor: string, comment: string, later: int)
    requires WellFormed(s.store) && s.store.activeId != "" && ActivateVersion(s, id, activator, now).1.Done?
    ensures var previous, t := s.store.activeId, ActivateVersion(s, id, activator, now).0;
            var (u, reply) := Rollback(t, previous, actor, comment, false, later);
            && reply.Done?
            && u.store.activeId == previous
            && StatusesOf(u.store) == StatusesOf(s.store)[id := Superseded]
  {
    var previous, t := s.store.activeId, ActivateVersion(s, id, activator, now).0;
    ActivationShape(s, id, activator, now);
    assert previous in StatusesOf(s.store) && id in StatusesOf(s.store) && previous != id;
    assert previous in StatusesOf(t.store);
    RollbackShape(t, previous, actor, comment, later);
    SwitchedBack(StatusesOf(s.store), previous, id);
  }
}
