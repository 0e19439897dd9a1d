/** The repository, the audit service and the decision service, as objects that change their tables in place. */
module DecisionService {
  import opened Outcomes
  import opened StatusGraph
  import opened Decisions
  import opened RevisionChain
  import opened SequentialCalls

  class PriorityDecisionRepository {
    var rows: map<nat, Decision>
    var revisions: seq<Revision>
    var lastId: nat

    ghost predicate Valid()
      reads this
    {
      forall id :: id in rows ==> id <= lastId
    }

    ghost function View(): Tables
      reads this
    {
      Tables(rows, revisions)
    }

    constructor ()
      ensures Valid() && View() == Tables(map[], [])
    {
      rows, revisions, lastId := map[], [], 0;
    }

    method Get(id: nat) returns (item: Option<Decision>, history: seq<Revision>)
      ensures item == if id in rows && !rows[id].deleted then Some(rows[id]) else None
      ensures history == if item.Some? then History(revisions, id) else []
    {
      history := [];
      if id !in rows || rows[id].deleted {
        return None, [];
      }
      for i := 0 to |revisions|
        invariant history == History(revisions[..i], id)
      {
        assert revisions[..i + 1][..i] == revisions[..i];
        if revisions[i].decisionId == id {
          history := history + [revisions[i]];
        }
      }
      assert revisions[..|revisions|] == revisions;
      item := Some(rows[id]);
    }

    /** The row, then its revision under the new id; a duplicate key undoes both. */
    method CreateWithRevision(item: Decision, revision: Revision) returns (r: Result<nat>)
      requires Valid()
      modifies this
      ensures Valid()
      ensures old(lastId) + 1 !in old(rows)
      ensures r == if (exists id :: id in old(rows) && old(rows)[id].code == item.code)
                      || (exists q :: q in old(revisions) && q.decisionId == old(lastId) + 1
                                      && q.version == revision.version)
                   then Failure(DuplicateKey) else Success(old(lastId) + 1)
      ensures r.Failure? ==> rows == old(rows) && revisions == old(revisions)
      ensures r.Success? ==> rows == old(rows)[r.value := item]
                             && revisions == old(revisions) + [revision.(decisionId := r.value)]
    {
      if !CodeFree(rows, item.code) {
        return Failure(DuplicateKey);
      }
      var before := rows;
      lastId := lastId + 1;
      rows := rows[lastId := item];
      var stamped := revision.(decisionId := lastId);
      if !IndexFree(revisions, stamped) {
        rows := before;
        return Failure(DuplicateKey);
      }
      revisions := revisions + [stamped];
      r := Success(lastId);
    }

    /** The conditional update, then the revision; no matching row or a duplicate key undoes both. */
    method UpdateWithRevision(id: nat, version: nat, item: Decision, revision: Revision) returns (r: Result<()>)
      requires Valid()
      modifies this
      ensures Valid() && lastId == old(lastId)
      ensures r == if id !in old(rows) || old(rows)[id].deleted || old(rows)[id].version != version
                   then Failure(VersionConflict)
                   else if exists q :: q in old(revisions) && q.decisionId == id && q.version == revision.version
                   then Failure(DuplicateKey)
                   else Success(())
      ensures r.Failure? ==> rows == old(rows) && revisions == old(revisions)
      ensures r.Success? ==>
                && rows == old(rows)[id := Decision(old(rows)[id].code, item.business, item.status, item.version,
                                                    old(rows)[id].preparedBy, false)]
                && revisions == old(revisions) + [revision.(decisionId := id)]
    {
      var before := rows;
      if id !in rows || rows[id].deleted || rows[id].version != version {
        return Failure(VersionConflict);
      }
      rows := rows[id := rows[id].(business := item.business, status := item.status, version := item.version)];
      var stamped := revision.(decisionId := id);
      if !IndexFree(revisions, stamped) {
        rows := before;
        return Failure(DuplicateKey);
      }
      revisions := revisions + [stamped];
      r := Success(());
    }

    method Delete(id: nat) returns (r: Result<()>)
      requires Valid()
      modifies this
      ensures Valid() && lastId == old(lastId)
      ensures r == if id in old(rows) && !old(rows)[id].deleted then Success(()) else Failure(NotFound)
      ensures revisions == old(revisions)
      ensures r.Failure? ==> rows == old(rows)
      ensures r.Success? ==>
                var row := old(rows)[id];
                rows == old(rows)[id := Decision(row.code, row.business, row.status, row.version, row.preparedBy, true)]
    {
      if id !in rows || rows[id].deleted {
        return Failure(NotFound);
      }
      rows := rows[id := rows[id].(deleted := true)];
      r := Success(());
    }
  }

  class SecurityService {
    var log: seq<AuditRow>

    constructor ()
      ensures log == []
    {
      log := [];
    }

    /** `stored` tells whether the database takes the row. */
    method Audit(actor: string, requestId: string, action: string, entityType: string, entityId: nat,
                 before: string, after: string, detail: string, stored: bool) returns (ok: bool)
      modifies this
      ensures ok <==> stored && action != "" && entityType != ""
      ensures !ok ==> log == old(log)
      ensures ok ==> log == old(log) + [AuditRow(Or(actor, "system"), Or(requestId, "untracked"),
                                                 action, entityType, entityId, before, after, detail)]
    {
      var who, request := actor, requestId;
      if who == "" {
        who := "system";
      }
      if request == "" {
        request := "untracked";
      }
      if action == "" || entityType == "" {
        return false;
      }
      if stored {
        log := log + [AuditRow(who, request, action, entityType, entityId, before, after, detail)];
      }
      ok := stored;
    }
  }

  class PriorityDecisionService {
    const repository: PriorityDecisionRepository
    const security: SecurityService

    constructor (repository: PriorityDecisionRepository, security: SecurityService)
      ensures this.repository == repository && this.security == security
    {
      this.repository, this.security := repository, security;
    }

    method Create(code: string, business: Business, actor: string, requestId: string, stored: bool)
        returns (r: Result<Response>)
      requires repository.Valid()
      modifies repository, security
      ensures repository.Valid()
      ensures Outcome(repository.View(), security.log, r)
              == Effect(old(repository.View()), old(security.log), Call.Create(code, business, actor, requestId),
                        old(repository.lastId) + 1, stored)
      ensures old(Sound(repository.View())) ==> Sound(repository.View())
    {
      hide Sound, History;
      ghost var call := Call.Create(code, business, actor, requestId);
      ghost var t := repository.View();
      ghost var newId := repository.lastId + 1;
      EffectKeepsSound(t, security.log, call, newId, stored);
      if !ValidFields(code, business) {
        return Failure(InvalidInput);
      }
      var item := Decision(code, business, DRAFT, 1, actor, false);
      var revision := NewRevision(0, 0, item, "decision draft created", actor, requestId);
      var created := repository.CreateWithRevision(item, revision);
      if created.Failure? {
        return Failure(created.error);
      }
      var _ := security.Audit(actor, requestId, "create", ENTITY, created.value, "", item.status, "created", stored);
      r := Answer(created.value);
    }

    method Answer(id: nat) returns (r: Result<Response>)
      ensures r == if Live(repository.View(), id)
                   then Success(Item(repository.rows[id], History(repository.revisions, id))) else Failure(NotFound)
    {
      var item, history := repository.Get(id);
      r := if item.Some? then Success(Item(item.value, history)) else Failure(NotFound);
    }

    method Update(id: nat, expected: nat, business: Business, actor: string, role: string, requestId: string,
                  stored: bool)
        returns (r: Result<Response>)
      requires repository.Valid()
      modifies repository, security
      ensures repository.Valid()
      ensures Outcome(repository.View(), security.log, r)
              == Effect(old(repository.View()), old(security.log),
                        Call.Update(id, expected, business, actor, role, requestId), 0, stored)
      ensures old(Sound(repository.View())) ==> Sound(repository.View())
    {
      hide Sound, History;
      ghost var call := Call.Update(id, expected, business, actor, role, requestId);
      ghost var t := repository.View();
      EffectKeepsSound(t, security.log, call, 0, stored);
      var found, _ := repository.Get(id);
      if found.None? {
        return Failure(NotFound);
      }
      var current := found.value;
      if current.status != DRAFT {
        return Failure(DecisionLocked);
      }
      if actor != current.preparedBy && role != ADMIN {
        return Failure(NotDecisionOwner);
      }
      if !ValidFields(current.code, business) {
        return Failure(InvalidInput);
      }
      current := current.(business := business);
      current := current.(version := expected + 1);
      var revision := NewRevision(id, id, current, "draft business fields updated", actor, requestId);
      var written := repository.UpdateWithRevision(id, expected, current, revision);
      if written.Failure? {
        return Failure(written.error);
      }
      var _ := security.Audit(actor, requestId, "update", ENTITY, id, current.status, current.status,
                              "updated business fields", stored);
      r := Answer(id);
    }

    method Transition(id: nat, expected: nat, target: string, reason: string, actor: string, role: string,
                      requestId: string, stored: bool)
        returns (r: Result<Response>)
      requires repository.Valid()
      modifies repository, security
      ensures repository.Valid()
      ensures Outcome(repository.View(), security.log, r)
              == Effect(old(repository.View()), old(security.log),
                        Call.Transition(id, expected, target, reason, actor, role, requestId), 0, stored)
      ensures old(Sound(repository.View())) ==> Sound(repository.View())
    {
      hide Sound, History;
      ghost var call := Call.Transition(id, expected, target, reason, actor, role, requestId);
      ghost var t := repository.View();
      EffectKeepsSound(t, security.log, call, 0, stored);
      var found, _ := repository.Get(id);
      if found.None? {
        return Failure(NotFound);
      }
      var current := found.value;
      if role != REVIEWER && role != ADMIN {
        return Failure(ReviewRole);
      }
      if actor == current.preparedBy {
        return Failure(SeparationOfDuty);
      }
      if !CanTransition(PRIORITY_DECISION_TRANSITIONS, current.status, target) {
        return Failure(InvalidTransition);
      }
      var before := current.status;
      current := current.(status := target);
      current := current.(version := expected + 1);
      var revision := NewRevision(id, id, current, reason, actor, requestId);
      var written := repository.UpdateWithRevision(id, expected, current, revision);
      if written.Failure? {
        return Failure(written.error);
      }
      var logged := security.Audit(actor, requestId, "transition", ENTITY, id, before, target, reason, stored);
      if !logged {
        return Failure(AuditFailure);
      }
      r := Answer(id);
    }

    method Delete(id: nat, actor: string, requestId: string, stored: bool) returns (r: Result<Response>)
      requires repository.Valid()
      modifies repository, security
      ensures repository.Valid()
      ensures Outcome(repository.View(), security.log, r)
              == Effect(old(repository.View()), old(security.log), Call.Delete(id, actor, requestId), 0, stored)
      ensures old(Sound(repository.View())) ==> Sound(repository.View())
    {
      hide Sound, History;
      ghost var call := Call.Delete(id, actor, requestId);
      ghost var t := repository.View();
      EffectKeepsSound(t, security.log, call, 0, stored);
      var found, _ := repository.Get(id);
      if found.None? {
        return Failure(NotFound);
      }
      if found.value.status != DRAFT {
        return Failure(DecisionLocked);
      }
      var gone := repository.Delete(id);
      match gone {
        case Failure(error) => return Failure(error);
        case Success(_) =>
      }
      var logged := security.Audit(actor, requestId, "delete", ENTITY, id, found.value.status, "deleted",
                                   "soft deleted", stored);
      if !logged {
        return Failure(AuditFailure);
      }
      r := Success(NoContent);
    }
  }
}
