/** The configuration control plane: versions of a bundle move through a dual-approval
    life cycle in a store, and every successful change appends one audit entry. Calls are
    sequential; the checks on the bundle text, the clock, the rate limiter and the
    identifiers are inputs. */
module ControlPlane {
  import opened Maps
  import opened Wrappers

  type Id = string

  datatype Status = Pending | Approved | Rejected | Active | Superseded

  datatype Action = Approve | Reject | Activate | RollbackTo

  function Next(from: Status, action: Action): Option<Status> {
    match (from, action)
    case (Pending, Approve) => Some(Approved)
    case (Pending, Reject) => Some(Rejected)
    case (Approved, Activate) => Some(Active)
    case (Approved, Reject) => Some(Rejected)
    case (Active, RollbackTo) => Some(Active)
    case (Superseded, RollbackTo) => Some(Active)
    case _ => None
  }

  datatype Record = Record(
    sha: string, content: string, status: Status,
    submitter: string, submitterComment: string, submittedAt: int,
    reviewer: string, reviewerComment: string, reviewedAt: int,
    activator: string, activatedAt: int, deactivatedAt: int)

  // ---------------------------------------------------------------- the store

  datatype Store = Store(versions: map<Id, Record>, activeId: Id)

  function SetStatus(st: Store, id: Id, status: Status, actor: string, comment: string, now: int): Store
    requires id in st.versions
  {
    var rec := st.versions[id].(status := status);
    var reviewed := if status == Approved || status == Rejected
                    then rec.(reviewer := actor, reviewerComment := comment, reviewedAt := now)
                    else rec;
    st.(versions := st.versions[id := reviewed])
  }

  function Demoted(versions: map<Id, Record>, id: Id, now: int): map<Id, Record> {
    if id in versions then versions[id := versions[id].(status := Superseded, deactivatedAt := now)] else versions
  }

  /** `activateConfig`: nothing when the version cannot be activated. */
  function Promote(st: Store, id: Id, activator: string, now: int): Option<Store> {
    if id !in st.versions then None
    else if st.versions[id].status == Active && st.activeId == id then Some(st)
    else if st.versions[id].status != Approved && st.versions[id].status != Superseded then None
    else
      var rest := if st.activeId != "" && st.activeId != id then Demoted(st.versions, st.activeId, now) else st.versions;
      var rec := st.versions[id].(status := Active, activator := activator, activatedAt := now, deactivatedAt := 0);
      Some(Store(rest[id := rec], id))
  }

  /** `getActiveConfig`, as far as callers use it: the id of the active version or "". */
  function ActiveId(st: Store): Id {
    if st.activeId in st.versions then st.activeId else ""
  }

  predicate Live(rec: Record) {
    rec.status == Pending || rec.status == Approved || rec.status == Active
  }

  /** The order of version listings: newest first, ties by descending id. */
  predicate ListedBefore(versions: map<Id, Record>, a: Id, b: Id)
    requires a in versions && b in versions
  {
    versions[a].submittedAt > versions[b].submittedAt
    || (versions[a].submittedAt == versions[b].submittedAt && Greater(a, b))
  }

  predicate Greater(a: string, b: string) {
    if a == [] then false
    else if b == [] then true
    else a[0] > b[0] || (a[0] == b[0] && Greater(a[1..], b[1..]))
  }

  /** A live version with this content among the 500 that the duplicate check looks at. */
  predicate Duplicate(versions: map<Id, Record>, sha: string) {
    exists id <- versions ::
      && Live(versions[id])
      && versions[id].sha == sha
      && |set other <- versions | Live(versions[other]) && ListedBefore(versions, other, id)| < 500
  }

  // ---------------------------------------------------------------- the service

  datatype Entry =
    | SubmitEntry(id: Id, sha: string, size: nat, submitter: string, comment: string)
    | ApproveEntry(id: Id, reviewer: string, comment: string)
    | RejectEntry(id: Id, reviewer: string, comment: string)
    | ActivateEntry(id: Id, activator: string, previous: Id)
    | RollbackEntry(id: Id, actor: string, previous: Id, comment: string)

  datatype State = State(store: Store, audit: seq<Entry>)

  const EMPTY := State(Store(map[], ""), [])

  datatype Code =
    | PayloadTooLarge | SensitiveFieldDetected | InvalidYaml | ConfigValidationFailed
    | AlreadyExists | RateLimited | Internal
    | NotFound | PermissionDenied | FailedPrecondition | EmergencyNotImplemented

  datatype Reply = Failed(code: Code) | Done(id: Id, record: Record)

  /** What the checks on a bundle say, and the hash of its text. */
  datatype Checks = Checks(sensitive: bool, yamlOk: bool, invalid: bool, rateOk: bool, sha: string)

  const MAX_BUNDLE_BYTES := 0x10_0000

  datatype Bundle = Bundle(content: string, submitter: string, comment: string, checks: Checks)

  function Refusal(st: Store, b: Bundle): Option<Code> {
    if |b.content| > MAX_BUNDLE_BYTES then Some(PayloadTooLarge)
    else if b.checks.sensitive then Some(SensitiveFieldDetected)
    else if !b.checks.yamlOk then Some(InvalidYaml)
    else if b.checks.invalid then Some(ConfigValidationFailed)
    else if Duplicate(st.versions, b.checks.sha) then Some(AlreadyExists)
    else if !b.checks.rateOk then Some(RateLimited)
    else None
  }

  function NewRecord(b: Bundle, now: int): Record {
    Record(b.checks.sha, b.content, Pending, b.submitter, b.comment, now, "", "", 0, "", 0, 0)
  }

  function Submit(s: State, b: Bundle, validateOnly: bool, id: Id, now: int): (State, Reply) {
    var refusal := Refusal(s.store, b);
    if refusal.Some? then (s, Failed(refusal.value))
    else
      var rec := NewRecord(b, now);
      if validateOnly then (s, Done("", rec))
      else if id == "" || id in s.store.versions then (s, Failed(Internal))
      else
        (State(s.store.(versions := s.store.versions[id := rec]),
               s.audit + [SubmitEntry(id, rec.sha, |b.content|, b.submitter, b.comment)]),
         Done(id, rec))
  }

  function Review(s: State, id: Id, reviewer: string, comment: string, approve: bool, now: int): (State, Reply) {
    if id !in s.store.versions then (s, Failed(NotFound))
    else if s.store.versions[id].submitter == reviewer then (s, Failed(PermissionDenied))
    else
      var target := if approve then Approved else Rejected;
      if Next(s.store.versions[id].status, if approve then Approve else Reject) != Some(target)
      then (s, Failed(FailedPrecondition))
      else
        var st := SetStatus(s.store, id, target, reviewer, comment, now);
        var entry := if approve then ApproveEntry(id, reviewer, comment) else RejectEntry(id, reviewer, comment);
        (State(st, s.audit + [entry]), Done(id, st.versions[id]))
  }

  function ActivateVersion(s: State, id: Id, activator: string, now: int): (State, Reply) {
    if id !in s.store.versions then (s, Failed(NotFound))
    else if Next(s.store.versions[id].status, Activate) != Some(Active) then (s, Failed(FailedPrecondition))
    else
      var st := Promote(s.store, id, activator, now);
      if st.None? then (s, Failed(Internal))
      else (State(st.value, s.audit + [ActivateEntry(id, activator, ActiveId(s.store))]),
            Done(id, st.value.versions[id]))
  }

  function Rollback(s: State, id: Id, actor: string, comment: string, emergency: bool, now: int): (State, Reply) {
    if emergency then (s, Failed(EmergencyNotImplemented))
    else if id !in s.store.versions then (s, Failed(NotFound))
    else if Next(s.store.versions[id].status, RollbackTo).None? then (s, Failed(FailedPrecondition))
    else
      var st := if s.store.versions[id].status == Active then Some(s.store) else Promote(s.store, id, actor, now);
      if st.None? then (s, Failed(Internal))
      else (State(st.value, s.audit + [RollbackEntry(id, actor, ActiveId(s.store), comment)]),
            Done(id, st.value.versions[id]))
  }

  const BOOTSTRAP_ACTOR := "system_bootstrap"

  datatype BootstrapResult =
    | SkippedNoBootstrap | SkippedNotEmpty | FileReadFailed
    | SubmitFailed(code: Code) | ApproveFailed | ActivateFailed
    | Bootstrapped(id: Id)

  /** Installs a first version directly in the store, without a second person. `file` is
      nothing when the bootstrap file cannot be read. */
  function Bootstrap(s: State, path: string, file: Option<string>, checks: Checks, id: Id, now: int):
      (State, BootstrapResult) {
    if path == "" then (s, SkippedNoBootstrap)
    else if s.store.versions != map[] then (s, SkippedNotEmpty)
    else if file.None? then (s, FileReadFailed)
    else
      var bundle := Bundle(file.value, BOOTSTRAP_ACTOR, "bootstrap from " + path, checks);
      var (t, reply) := Submit(s, bundle, false, id, now);
      if reply.Failed? then (t, SubmitFailed(reply.code))
      else if reply.id !in t.store.versions then (t, ApproveFailed)
      else
        var st := SetStatus(t.store, reply.id, Approved, BOOTSTRAP_ACTOR, "bootstrap auto-approve", now);
        var active := Promote(st, reply.id, BOOTSTRAP_ACTOR, now);
        if active.None? then (t.(store := st), ActivateFailed)
        else (t.(store := active.value), Bootstrapped(reply.id))
  }

  // ---------------------------------------------------------------- runs

  datatype Call =
    | CallSubmit(bundle: Bundle, validateOnly: bool, newId: Id, now: int)
    | CallReview(id: Id, actor: string, comment: string, approve: bool, now: int)
    | CallActivate(id: Id, actor: string, now: int)
    | CallRollback(id: Id, actor: string, comment: string, emergency: bool, now: int)
    | CallBootstrap(path: string, file: Option<string>, checks: Checks, newId: Id, now: int)

  function After(s: State, c: Call): State {
    match c
    case CallSubmit(b, validateOnly, id, now) => Submit(s, b, validateOnly, id, now).0
    case CallReview(id, actor, comment, approve, now) => Review(s, id, actor, comment, approve, now).0
    case CallActivate(id, actor, now) => ActivateVersion(s, id, actor, now).0
    case CallRollback(id, actor, comment, emergency, now) => Rollback(s, id, actor, comment, emergency, now).0
    case CallBootstrap(path, file, checks, id, now) => Bootstrap(s, path, file, checks, id, now).0
  }

  function End(s: State, calls: seq<Call>): State
    decreases |calls|
  {
    if calls == [] then s else End(After(s, calls[0]), calls[1..])
  }

  // ---------------------------------------------------------------- single calls

  /** A submission goes through exactly when every gate is passed, in whatever order they
      are tried, and then stores one pending version and appends one entry. */
  lemma SubmitAcceptsIff(s: State, b: Bundle, validateOnly: bool, id: Id, now: int)
    ensures var (t, reply) := Submit(s, b, validateOnly, id, now);
            && (reply.Done? <==>
                  && |b.content| <= MAX_BUNDLE_BYTES && !b.checks.sensitive && b.checks.yamlOk && !b.checks.invalid
                  && b.checks.rateOk && !Duplicate(s.store.versions, b.checks.sha)
                  && (validateOnly || (id != "" && id !in s.store.versions)))
            && (reply.Failed? || validateOnly ==> t == s)
            && (reply.Done? && !validateOnly ==>
                  && t.store.versions.Keys == s.store.versions.Keys + {id}
                  && t.store.versions[id].status == Pending && t.store.versions[id].content == b.content
                  && t.store.versions[id].submitter == b.submitter
                  && t.store.activeId == s.store.activeId
                  && |t.audit| == |s.audit| + 1 && s.audit <= t.audit)
  {
  }

  /** `after` is `s`, or `s` with one more audit entry when the call succeeded. */
  ghost predicate AllOrNothing(s: State, after: State, reply: Reply) {
    if reply.Failed? then after == s else |after.audit| == |s.audit| + 1 && s.audit <= after.audit
  }

  /** Refused calls change neither the store nor the audit trail; every other call appends
      exactly one entry. */
  lemma RefusedChangesNothing(s: State, id: Id, actor: string, comment: string, flag: bool, now: int)
    ensures var (t, reply) := Review(s, id, actor, comment, flag, now); AllOrNothing(s, t, reply)
    ensures var (t, reply) := ActivateVersion(s, id, actor, now); AllOrNothing(s, t, reply)
    ensures var (t, reply) := Rollback(s, id, actor, comment, flag, now); AllOrNothing(s, t, reply)
  {
  }

  /** A pending version that someone other than its submitter approves can be activated. */
  lemma TwoPeopleActivate(s: State, id: Id, reviewer: string, comment: string, now: int, activator: string, later: int)
    requires WellFormed(s.store) && id in s.store.versions && s.store.versions[id].status == Pending
    requires reviewer != s.store.versions[id].submitter
    ensures var (t, approved) := Review(s, id, reviewer, comment, true, now);
            var (u, activated) := ActivateVersion(t, id, activator, later);
            && approved.Done? && activated.Done?
            && u.store.activeId == id && u.store.versions[id].status == Active
            && u.store.versions[id].reviewer == reviewer && u.store.versions[id].activator == activator
  {
  }

  // ---------------------------------------------------------------- the life cycle

  /** `activeId` names the one active version. */
  ghost predicate WellFormed(st: Store) {
    && "" !in st.versions
    && (st.activeId != "" ==> st.activeId in st.versions && st.versions[st.activeId].status == Active)
    && forall id <- st.versions :: st.versions[id].status == Active ==> id == st.activeId
  }

  /** What never changes once a version is submitted. */
  predicate SameSubmission(a: Record, b: Record) {
    && a.sha == b.sha && a.content == b.content
    && a.submitter == b.submitter && a.submitterComment == b.submitterComment && a.submittedAt == b.submittedAt
  }

  /** The status that a call leaves version `id` with: the verdict of a review of a pending
      version by someone else, a rejection of an approved one, the activation of an approved
      one, the rollback to a superseded one, the demotion of the version that was active
      before, and otherwise the status it had. */
  ghost function Moved(s: State, c: Call, id: Id): Status
    requires id in s.store.versions
  {
    var from := s.store.versions[id].status;
    match c
    case CallReview(x, actor, _, approve, _) =>
      if x != id || s.store.versions[id].submitter == actor then from
      else if approve && from == Pending then Approved
      else if !approve && (from == Pending || from == Approved) then Rejected
      else from
    case CallActivate(x, _, _) =>
      if x in s.store.versions && s.store.versions[x].status == Approved then AfterSwitch(from, id, x) else from
    case CallRollback(x, _, _, emergency, _) =>
      if !emergency && x in s.store.versions && s.store.versions[x].status == Superseded then AfterSwitch(from, id, x)
      else from
    case _ => from
  }

  /** The status of `id` when version `x` becomes active. */
  ghost function AfterSwitch(from: Status, id: Id, x: Id): Status {
    if id == x then Active else if from == Active then Superseded else from
  }

  /** The only ways a call may treat an existing version. */
  ghost predicate LegalMove(s: State, c: Call, id: Id)
    requires id in s.store.versions
  {
    var t := After(s, c);
    && id in t.store.versions
    && SameSubmission(s.store.versions[id], t.store.versions[id])
    && t.store.versions[id].status == Moved(s, c, id)
  }

  lemma PromoteShape(st: Store, id: Id, activator: string, now: int)
    requires WellFormed(st) && id in st.versions
    requires st.versions[id].status == Approved || st.versions[id].status == Superseded
    ensures Promote(st, id, activator, now).Some?
    ensures var t := Promote(st, id, activator, now).value;
            && t.activeId == id
            && t.versions.Keys == st.versions.Keys
            && t.versions[id]
               == st.versions[id].(status := Active, activator := activator, activatedAt := now, deactivatedAt := 0)
            && (st.activeId != "" ==>
                  t.versions[st.activeId] == st.versions[st.activeId].(status := Superseded, deactivatedAt := now))
            && forall x <- st.versions :: x != id && x != st.activeId ==> t.versions[x] == st.versions[x]
  {
  }

  lemma PromoteStaysWellFormed(st: Store, id: Id, activator: string, now: int)
    requires WellFormed(st) && id in st.versions
    requires st.versions[id].status == Approved || st.versions[id].status == Superseded
    ensures WellFormed(Promote(st, id, activator, now).value)
  {
    PromoteShape(st, id, activator, now);
  }

  lemma BootstrapShape(s: State, path: string, file: Option<string>, checks: Checks, id: Id, now: int)
    requires WellFormed(s.store)
    ensures var (t, r) := Bootstrap(s, path, file, checks, id, now);
            if r.Bootstrapped? then
              && s.store.versions == map[] && id != "" && r.id == id
              && t.store.activeId == id && t.store.versions.Keys == {id}
              && t.store.versions[id].status == Active
              && t.store.versions[id].submitter == t.store.versions[id].reviewer == BOOTSTRAP_ACTOR
              && |t.audit| == |s.audit| + 1 && t.audit[..|s.audit|] == s.audit
              && t.audit[|s.audit|].SubmitEntry? && t.audit[|s.audit|].id == id
            else t == s
  {
  }

  lemma StepKeepsWellFormed(s: State, c: Call)
    requires WellFormed(s.store)
    ensures WellFormed(After(s, c).store)
  {
    match c
    case CallSubmit(_, _, _, _) =>
    case CallReview(_, _, _, _, _) =>
    case CallActivate(id, actor, now) =>
      if After(s, c) != s {
        PromoteStaysWellFormed(s.store, id, actor, now);
      }
    case CallRollback(id, actor, _, _, now) =>
      if After(s, c) != s && s.store.versions[id].status != Active {
        PromoteStaysWellFormed(s.store, id, actor, now);
      }
    case CallBootstrap(path, file, checks, id, now) =>
      BootstrapShape(s, path, file, checks, id, now);
  }

  lemma PromoteMoves(st: Store, target: Id, actor: string, now: int, id: Id)
    requires WellFormed(st) && id in st.versions && target in st.versions
    requires st.versions[target].status == Approved || st.versions[target].status == Superseded
    ensures var t := Promote(st, target, actor, now);
            && t.Some? && id in t.value.versions
            && SameSubmission(st.versions[id], t.value.versions[id])
            && t.value.versions[id].status == AfterSwitch(st.versions[id].status, id, target)
  {
    PromoteShape(st, target, actor, now);
  }

  lemma ReviewMovesLegally(s: State, c: Call, id: Id)
    requires id in s.store.versions && c.CallReview?
    ensures LegalMove(s, c, id)
  {
  }

  lemma ActivateMovesLegally(s: State, c: Call, id: Id)
    requires WellFormed(s.store) && id in s.store.versions && c.CallActivate?
    ensures LegalMove(s, c, id)
  {
    if c.id in s.store.versions && s.store.versions[c.id].status == Approved {
      PromoteMoves(s.store, c.id, c.actor, c.now, id);
    }
  }

  lemma RollbackMovesLegally(s: State, c: Call, id: Id)
    requires WellFormed(s.store) && id in s.store.versions && c.CallRollback?
    ensures LegalMove(s, c, id)
  {
    if c.id in s.store.versions && s.store.versions[c.id].status == Superseded {
      PromoteMoves(s.store, c.id, c.actor, c.now, id);
    }
  }

  /** Every call leaves every version with exactly the status that `Moved` tells, and rewrites
      no submission. */
  lemma StepMovesLegally(s: State, c: Call, id: Id)
    requires WellFormed(s.store) && id in s.store.versions
    ensures LegalMove(s, c, id)
  {
    match c
    case CallSubmit(_, _, _, _) =>
    case CallReview(_, _, _, _, _) => ReviewMovesLegally(s, c, id);
    case CallActivate(_, _, _) => ActivateMovesLegally(s, c, id);
    case CallRollback(_, _, _, _, _) => RollbackMovesLegally(s, c, id);
    case CallBootstrap(path, file, checks, x, now) => BootstrapShape(s, path, file, checks, x, now);
  }

  // ---------------------------------------------------------------- duplicates

  ghost function LiveIds(versions: map<Id, Record>): set<Id> {
    set id <- versions | Live(versions[id])
  }

  lemma {:induction false} NotGreater(a: string)
    ensures !Greater(a, a)
  {
    if a != [] {
      NotGreater(a[1..]);
    }
  }

  lemma ListedAmongFew(versions: map<Id, Record>, id: Id)
    requires id in versions && Live(versions[id]) && |LiveIds(versions)| <= 500
    ensures |set other <- versions | Live(versions[other]) && ListedBefore(versions, other, id)| < 500
  {
    var before := set other <- versions | Live(versions[other]) && ListedBefore(versions, other, id);
    NotGreater(id);
    assert before <= LiveIds(versions) - {id};
    SubsetSize(before, LiveIds(versions) - {id});
  }

  /** While at most 500 versions are live, a content is refused as a duplicate exactly when some
      pending, approved or active version has it. */
  lemma DuplicateIff(versions: map<Id, Record>, sha: string)
    requires |LiveIds(versions)| <= 500
    ensures Duplicate(versions, sha) <==>
              exists id <- versions :: versions[id].sha == sha && versions[id].status in {Pending, Approved, Active}
  {
    forall id <- versions | Live(versions[id])
      ensures |set other <- versions | Live(versions[other]) && ListedBefore(versions, other, id)| < 500
    {
      ListedAmongFew(versions, id);
    }
  }

  /** What was submitted cannot be submitted again while it is live. */
  lemma SecondSubmissionIsRefused(s: State, b: Bundle, id: Id, now: int, again: Bundle, validateOnly: bool, id': Id, later: int)
    requires Submit(s, b, false, id, now).1.Done? && again.checks.sha == b.checks.sha
    requires |LiveIds(s.store.versions)| < 500
    ensures var t := Submit(s, b, false, id, now).0;
            var (u, reply) := Submit(t, again, validateOnly, id', later);
            reply.Failed? && u == t
  {
    var t := Submit(s, b, false, id, now).0;
    assert LiveIds(t.store.versions) == LiveIds(s.store.versions) + {id};
    DuplicateIff(t.store.versions, b.checks.sha);
    assert t.store.versions[id].sha == b.checks.sha && t.store.versions[id].status == Pending;
  }
}
