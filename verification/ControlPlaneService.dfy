/** The store and the service as objects that are changed in place. Branches for a version
    that vanishes between two store calls cannot be reached by sequential calls and are
    not written out. */
module ControlPlaneService {
  import opened ControlPlane
  import opened Wrappers

  class ConfigStore {
    var versions: map<Id, Record>
    var activeId: Id

    function Value(): Store
      reads this
    {
      Store(versions, activeId)
    }

    constructor ()
      ensures Value() == EMPTY.store
    {
      versions, activeId := map[], "";
    }

    method InsertConfigVersion(id: Id, rec: Record) returns (ok: bool)
      modifies this
      ensures ok <==> id != "" && id !in old(versions)
      ensures Value() == if ok then Store(old(versions)[id := rec], old(activeId)) else old(Value())
    {
      if id == "" || id in versions {
        return false;
      }
      versions := versions[id := rec];
      ok := true;
    }

    method UpdateConfigStatus(id: Id, status: Status, actor: string, comment: string, now: int) returns (ok: bool)
      modifies this
      ensures ok <==> id in old(versions)
      ensures Value() == if ok then SetStatus(old(Value()), id, status, actor, comment, now) else old(Value())
    {
      if id !in versions {
        return false;
      }
      var rec := versions[id].(status := status);
      if status == Approved || status == Rejected {
        rec := rec.(reviewer := actor, reviewerComment := comment, reviewedAt := now);
      }
      versions := versions[id := rec];
      ok := true;
    }

    method ActivateConfig(id: Id, activator: string, now: int) returns (ok: bool)
      modifies this
      ensures ok <==> Promote(old(Value()), id, activator, now).Some?
      ensures Value() == if ok then Promote(old(Value()), id, activator, now).value else old(Value())
    {
      if id !in versions {
        return false;
      }
      var target := versions[id];
      if target.status == Active && activeId == id {
        return true;
      }
      if target.status != Approved && target.status != Superseded {
        return false;
      }
      if activeId != "" && activeId != id {
        if activeId in versions {
          versions := versions[activeId := versions[activeId].(status := Superseded, deactivatedAt := now)];
        }
      }
      versions := versions[id := target.(status := Active, activator := activator, activatedAt := now, deactivatedAt := 0)];
      activeId := id;
      ok := true;
    }
  }

  class ConfigServiceCore {
    const store: ConfigStore
    var audit: seq<Entry>

    function Value(): State
      reads this, store
    {
      State(store.Value(), audit)
    }

    constructor (store: ConfigStore)
      ensures this.store == store && audit == []
    {
      this.store, audit := store, [];
    }

    method SubmitBundle(b: Bundle, validateOnly: bool, id: Id, now: int) returns (r: Reply)
      modifies this, store
      ensures (Value(), r) == Submit(old(Value()), b, validateOnly, id, now)
    {
      if |b.content| > MAX_BUNDLE_BYTES {
        return Failed(PayloadTooLarge);
      }
      if b.checks.sensitive {
        return Failed(SensitiveFieldDetected);
      }
      if !b.checks.yamlOk {
        return Failed(InvalidYaml);
      }
      if b.checks.invalid {
        return Failed(ConfigValidationFailed);
      }
      if Duplicate(store.versions, b.checks.sha) {
        return Failed(AlreadyExists);
      }
      if !b.checks.rateOk {
        return Failed(RateLimited);
      }
      var rec := NewRecord(b, now);
      if validateOnly {
        return Done("", rec);
      }
      var ok := store.InsertConfigVersion(id, rec);
      if !ok {
        return Failed(Internal);
      }
      audit := audit + [SubmitEntry(id, rec.sha, |b.content|, rec.submitter, rec.submitterComment)];
      r := Done(id, rec);
    }

    method TransitionReview(id: Id, reviewer: string, comment: string, approve: bool, now: int) returns (r: Reply)
      modifies this, store
      ensures (Value(), r) == Review(old(Value()), id, reviewer, comment, approve, now)
    {
      if id !in store.versions {
        return Failed(NotFound);
      }
      var existing := store.versions[id];
      if existing.submitter == reviewer {
        return Failed(PermissionDenied);
      }
      var target, action := Rejected, Reject;
      if approve {
        target, action := Approved, Approve;
      }
      var next := Next(existing.status, action);
      if next.None? || next.value != target {
        return Failed(FailedPrecondition);
      }
      var _ := store.UpdateConfigStatus(id, target, reviewer, comment, now);
      if approve {
        audit := audit + [ApproveEntry(id, reviewer, comment)];
      } else {
        audit := audit + [RejectEntry(id, reviewer, comment)];
      }
      r := Done(id, store.versions[id]);
    }

    method ActivateBundle(id: Id, activator: string, now: int) returns (r: Reply)
      modifies this, store
      ensures (Value(), r) == ActivateVersion(old(Value()), id, activator, now)
    {
      if id !in store.versions {
        return Failed(NotFound);
      }
      var next := Next(store.versions[id].status, Activate);
      if next.None? || next.value != Active {
        return Failed(FailedPrecondition);
      }
      var previous := ActiveId(store.Value());
      var _ := store.ActivateConfig(id, activator, now);
      audit := audit + [ActivateEntry(id, activator, previous)];
      r := Done(id, store.versions[id]);
    }

    method RollbackBundle(id: Id, actor: string, comment: string, emergency: bool, now: int) returns (r: Reply)
      modifies this, store
      ensures (Value(), r) == Rollback(old(Value()), id, actor, comment, emergency, now)
    {
      if emergency {
        return Failed(EmergencyNotImplemented);
      }
      if id !in store.versions {
        return Failed(NotFound);
      }
      var next := Next(store.versions[id].status, RollbackTo);
      if next.None? {
        return Failed(FailedPrecondition);
      }
      var previous := ActiveId(store.Value());
      if store.versions[id].status != Active {
        var _ := store.ActivateConfig(id, actor, now);
      }
      audit := audit + [RollbackEntry(id, actor, previous, comment)];
      r := Done(id, store.versions[id]);
    }

    /** `bootstrapFromActiveYamlIfEmpty`, which drives the service and then the store. */
    method BootstrapIfEmpty(path: string, file: Option<string>, checks: Checks, id: Id, now: int)
      returns (r: BootstrapResult)
      modifies this, store
      ensures (Value(), r) == Bootstrap(old(Value()), path, file, checks, id, now)
    {
      if path == "" {
        return SkippedNoBootstrap;
      }
      if store.versions != map[] {
        return SkippedNotEmpty;
      }
      if file.None? {
        return FileReadFailed;
      }
      var bundle := Bundle(file.value, BOOTSTRAP_ACTOR, "bootstrap from " + path, checks);
      var reply := SubmitBundle(bundle, false, id, now);
      if reply.Failed? {
        return SubmitFailed(reply.code);
      }
      var _ := store.UpdateConfigStatus(reply.id, Approved, BOOTSTRAP_ACTOR, "bootstrap auto-approve", now);
      var _ := store.ActivateConfig(reply.id, BOOTSTRAP_ACTOR, now);
      r := Bootstrapped(reply.id);
    }
  }
}
