/** The generic store and the service that the three aggregates share, changing their table in place. */
module AggregateServices {
  import opened Outcomes
  import opened StatusGraph
  import opened Aggregates
  import opened DecisionService
  import Decisions

  class Store {
    var rows: Table
    var lastId: nat

    ghost predicate Valid()
      reads this
    {
      forall id :: id in rows ==> id <= lastId
    }

    constructor ()
      ensures Valid() && rows == map[]
    {
      rows, lastId := map[], 0;
    }

    method Get(id: nat) returns (r: Result<Row>)
      ensures r == if id in rows && !rows[id].deleted then Success(rows[id]) else Failure(NotFound)
    {
      r := if id in rows && !rows[id].deleted then Success(rows[id]) else Failure(NotFound);
    }

    method Create(item: Row) returns (r: Result<nat>)
      requires Valid()
      modifies this
      ensures Valid() && old(lastId) + 1 !in old(rows)
      ensures r == if exists id :: id in old(rows) && old(rows)[id].code == item.code then Failure(DuplicateKey)
                   else Success(old(lastId) + 1)
      ensures rows == if r.Success? then old(rows)[r.value := item] else old(rows)
    {
      if !CodeFree(rows, item.code) {
        return Failure(DuplicateKey);
      }
      lastId := lastId + 1;
      rows := rows[lastId := item];
      r := Success(lastId);
    }

    method Update(id: nat, expected: nat, item: Row) returns (r: Result<()>)
      requires Valid()
      modifies this
      ensures Valid() && lastId == old(lastId)
      ensures r == if id in old(rows) && !old(rows)[id].deleted && old(rows)[id].version == expected
                   then Success(()) else Failure(VersionConflict)
      ensures r.Failure? ==> rows == old(rows)
      ensures r.Success? ==>
                rows == old(rows)[id := Row(old(rows)[id].code, item.business, item.status, item.version, false)]
    {
      if id !in rows || rows[id].deleted || rows[id].version != expected {
        return Failure(VersionConflict);
      }
      rows := rows[id := rows[id].(business := item.business, status := item.status, version := item.version)];
      r := Success(());
    }

    method Delete(id: nat) returns (r: Result<()>)
      requires Valid()
      modifies this
      ensures Valid() && lastId == old(lastId)
      ensures r == if id in old(rows) && !old(rows)[id].deleted then Success(()) else Failure(NotFound)
      ensures rows == if r.Success? then old(rows)[id := old(rows)[id].(deleted := true)] else old(rows)
    {
      if id !in rows || rows[id].deleted {
        return Failure(NotFound);
      }
      rows := rows[id := rows[id].(deleted := true)];
      r := Success(());
    }
  }

  /** What one call, run alone, does to the table. */
  function TableAfter(kind: Kind, rows: Table, call: Call, newId: nat): Table {
    match Execute(kind, rows, call, newId)
    case Success(rows') => rows'
    case Failure(_) => rows
  }

  /** The error a call, run alone, reports: its own, or that of a transition's or deletion's audit append. */
  function Complaint(kind: Kind, rows: Table, call: Call, newId: nat, stored: bool): Option<Error> {
    match Execute(kind, rows, call, newId)
    case Failure(error) => Some(error)
    case Success(_) => if !stored && (call.Transition? || call.Delete?) then Some(AuditFailure) else None
  }

  type AuditRow = Decisions.AuditRow

  function EntryOf(kind: Kind, rows: Table, call: Call, newId: nat, actor: string, requestId: string, detail: string)
    : AuditRow
  {
    var before := if !call.Create? && call.id in rows then rows[call.id].status else "";
    var (action, after) :=
      match call
      case Create(_, _) => ("create", kind.initial)
      case Update(_, _, _) => ("update", before)
      case Transition(_, _, target) => ("transition", target)
      case Delete(_) => ("delete", "deleted");
    Decisions.AuditRow(Decisions.Or(actor, "system"), Decisions.Or(requestId, "untracked"),
                       action, kind.entity, RowId(call, newId), before, after, detail)
  }

  /** The log after one call, run alone: with its entry if the call was written and the append succeeded. */
  function LogAfter(kind: Kind, rows: Table, log: seq<AuditRow>, call: Call, newId: nat, stored: bool, entry: AuditRow)
    : seq<AuditRow>
  {
    if Execute(kind, rows, call, newId).Success? && stored then log + [entry] else log
  }

  // ---------- what each call leaves, column by column ----------

  lemma CreateLeaves(kind: Kind, rows: Table, log: seq<AuditRow>, code: string, b: Business, newId: nat,
                     stored: bool, actor: string, requestId: string)
    ensures var call := Call.Create(code, b);
            var error := if code == "" || b.name == "" || b.facility == "" || b.owner == "" then Some(InvalidInput)
                         else if exists id :: id in rows && rows[id].code == code then Some(DuplicateKey)
                         else None;
            var who := if actor == "" then "system" else actor;
            var request := if requestId == "" then "untracked" else requestId;
            && Complaint(kind, rows, call, newId, stored) == error
            && TableAfter(kind, rows, call, newId)
               == (if error == None then rows[newId := Row(code, b, kind.initial, 1, false)] else rows)
            && LogAfter(kind, rows, log, call, newId, stored,
                        EntryOf(kind, rows, call, newId, actor, requestId, "created"))
               == (if error == None && stored
                   then log + [Decisions.AuditRow(who, request, "create", kind.entity, newId,
                                                  "", kind.initial, "created")]
                   else log)
  {
    hide Execute;
    CallsAlone(kind, rows, Call.Create(code, b), newId);
  }

  /** Whatever status the row has, an edit leaves it, and the log says so. */
  lemma UpdateLeaves(kind: Kind, rows: Table, log: seq<AuditRow>, id: nat, expected: nat, b: Business,
                     stored: bool, actor: string, requestId: string)
    ensures var call, detail := Call.Update(id, expected, b), "updated business fields";
            var error := if id !in rows || rows[id].deleted then Some(NotFound)
                         else if rows[id].code == "" || b.name == "" || b.facility == "" || b.owner == ""
                         then Some(InvalidInput)
                         else if rows[id].version != expected then Some(VersionConflict)
                         else None;
            var who := if actor == "" then "system" else actor;
            var request := if requestId == "" then "untracked" else requestId;
            && Complaint(kind, rows, call, 0, stored) == error
            && TableAfter(kind, rows, call, 0)
               == (if error == None
                   then rows[id := Row(rows[id].code, b, rows[id].status, expected + 1, false)] else rows)
            && LogAfter(kind, rows, log, call, 0, stored, EntryOf(kind, rows, call, 0, actor, requestId, detail))
               == (if error == None && stored
                   then log + [Decisions.AuditRow(who, request, "update", kind.entity, id,
                                                  rows[id].status, rows[id].status, detail)]
                   else log)
  {
    hide Execute;
    CallsAlone(kind, rows, Call.Update(id, expected, b), 0);
  }

  lemma TransitionLeaves(kind: Kind, rows: Table, log: seq<AuditRow>, id: nat, expected: nat, target: string,
                         reason: string, stored: bool, actor: string, requestId: string)
    ensures var call := Call.Transition(id, expected, target);
            var refusal := if id !in rows || rows[id].deleted then Some(NotFound)
                           else if !CanTransition(kind.graph, rows[id].status, target) then Some(InvalidTransition)
                           else if rows[id].version != expected then Some(VersionConflict)
                           else None;
            var who := if actor == "" then "system" else actor;
            var request := if requestId == "" then "untracked" else requestId;
            && Complaint(kind, rows, call, 0, stored)
               == (if refusal == None && !stored then Some(AuditFailure) else refusal)
            && TableAfter(kind, rows, call, 0)
               == (if refusal == None
                   then rows[id := Row(rows[id].code, rows[id].business, target, expected + 1, false)] else rows)
            && LogAfter(kind, rows, log, call, 0, stored, EntryOf(kind, rows, call, 0, actor, requestId, reason))
               == (if refusal == None && stored
                   then log + [Decisions.AuditRow(who, request, "transition", kind.entity, id,
                                                  rows[id].status, target, reason)]
                   else log)
  {
    hide Execute, CanTransition;
    CallsAlone(kind, rows, Call.Transition(id, expected, target), 0);
  }

  lemma DeleteLeaves(kind: Kind, rows: Table, log: seq<AuditRow>, id: nat,
                     stored: bool, actor: string, requestId: string)
    ensures var call := Call.Delete(id);
            var live := id in rows && !rows[id].deleted;
            var who := if actor == "" then "system" else actor;
            var request := if requestId == "" then "untracked" else requestId;
            && Complaint(kind, rows, call, 0, stored)
               == (if !live then Some(NotFound) else if !stored then Some(AuditFailure) else None)
            && TableAfter(kind, rows, call, 0)
               == (if live
                   then rows[id := Row(rows[id].code, rows[id].business, rows[id].status, rows[id].version, true)]
                   else rows)
            && LogAfter(kind, rows, log, call, 0, stored,
                        EntryOf(kind, rows, call, 0, actor, requestId, "soft deleted"))
               == (if live && stored
                   then log + [Decisions.AuditRow(who, request, "delete", kind.entity, id,
                                                  rows[id].status, "deleted", "soft deleted")]
                   else log)
  {
    hide Execute;
    CallsAlone(kind, rows, Call.Delete(id), 0);
  }

  /** The names the log uses, and the statuses new rows start at. */
  lemma NewRowsStart(kind: Kind, rows: Table, code: string, b: Business, newId: nat, actor: string, requestId: string)
    requires kind in {BRIDGE_ASSET, INSPECTION_ROUND, DEFECT_FINDING}
    requires Execute(kind, rows, Call.Create(code, b), newId).Success?
    ensures var entry := EntryOf(kind, rows, Call.Create(code, b), newId, actor, requestId, "created");
            newId in TableAfter(kind, rows, Call.Create(code, b), newId)
            && (entry.entityType, TableAfter(kind, rows, Call.Create(code, b), newId)[newId].status)
               == if kind == BRIDGE_ASSET then ("BridgeAsset", "active")
                  else if kind == INSPECTION_ROUND then ("InspectionRound", "planned")
                  else ("DefectFinding", "new")
  {
  }

  // ---------- the service ----------

  class AggregateService {
    const kind: Kind
    const store: Store
    const security: SecurityService

    constructor (kind: Kind, store: Store, security: SecurityService)
      ensures this.kind == kind && this.store == store && this.security == security
    {
      this.kind, this.store, this.security := kind, store, security;
    }

    method Create(code: string, business: Business, actor: string, requestId: string, stored: bool)
        returns (r: Result<Row>)
      requires store.Valid()
      modifies store, security
      ensures store.Valid()
      ensures var call, newId := Call.Create(code, business), old(store.lastId) + 1;
              && store.rows == TableAfter(kind, old(store.rows), call, newId)
              && match Complaint(kind, old(store.rows), call, newId, stored)
                 case Some(error) => r == Failure(error)
                 case None => newId in store.rows && r == Success(store.rows[newId])
      ensures var call, newId := Call.Create(code, business), old(store.lastId) + 1;
              security.log == LogAfter(kind, old(store.rows), old(security.log), call, newId, stored,
                                       EntryOf(kind, old(store.rows), call, newId, actor, requestId, "created"))
    {
      if !ValidFields(code, business) {
        return Failure(InvalidInput);
      }
      var item := Row(code, business, kind.initial, 1, false);
      var created := store.Create(item);
      if created.Failure? {
        return Failure(created.error);
      }
      var _ := security.Audit(actor, requestId, "create", kind.entity, created.value, "", item.status, "created",
                              stored);
      r := Success(item);
    }

    method Update(id: nat, expected: nat, business: Business, actor: string, requestId: string, stored: bool)
        returns (r: Result<Row>)
      requires store.Valid()
      modifies store, security
      ensures store.Valid()
      ensures var call := Call.Update(id, expected, business);
              && store.rows == TableAfter(kind, old(store.rows), call, 0)
              && match Complaint(kind, old(store.rows), call, 0, stored)
                 case Some(error) => r == Failure(error)
                 case None => id in store.rows && r == Success(store.rows[id])
      ensures var call, detail := Call.Update(id, expected, business), "updated business fields";
              security.log == LogAfter(kind, old(store.rows), old(security.log), call, 0, stored,
                                       EntryOf(kind, old(store.rows), call, 0, actor, requestId, detail))
    {
      var found := store.Get(id);
      if found.Failure? {
        return found;
      }
      var current := found.value;
      if !ValidFields(current.code, business) {
        return Failure(InvalidInput);
      }
      current := current.(business := business);
      current := current.(version := expected + 1);
      var written := store.Update(id, expected, current);
      if written.Failure? {
        return Failure(written.error);
      }
      var _ := security.Audit(actor, requestId, "update", kind.entity, id, current.status, current.status,
                              "updated business fields", stored);
      r := store.Get(id);
    }

    method Transition(id: nat, expected: nat, target: string, reason: string, actor: string, requestId: string,
                      stored: bool)
        returns (r: Result<Row>)
      requires store.Valid()
      modifies store, security
      ensures store.Valid()
      ensures var call := Call.Transition(id, expected, target);
              && store.rows == TableAfter(kind, old(store.rows), call, 0)
              && match Complaint(kind, old(store.rows), call, 0, stored)
                 case Some(error) => r == Failure(error)
                 case None => id in store.rows && r == Success(store.rows[id])
      ensures var call := Call.Transition(id, expected, target);
              security.log == LogAfter(kind, old(store.rows), old(security.log), call, 0, stored,
                                       EntryOf(kind, old(store.rows), call, 0, actor, requestId, reason))
    {
      var found := store.Get(id);
      if found.Failure? {
        return found;
      }
      var current := found.value;
      if !CanTransition(kind.graph, current.status, target) {
        return Failure(InvalidTransition);
      }
      var before := current.status;
      current := current.(status := target);
      current := current.(version := expected + 1);
      var written := store.Update(id, expected, current);
      if written.Failure? {
        return Failure(written.error);
      }
      var logged := security.Audit(actor, requestId, "transition", kind.entity, id, before, target, reason, stored);
      if !logged {
        return Failure(AuditFailure);
      }
      r := store.Get(id);
    }

    method Delete(id: nat, actor: string, requestId: string, stored: bool) returns (r: Result<()>)
      requires store.Valid()
      modifies store, security
      ensures store.Valid()
      ensures var call := Call.Delete(id);
              && store.rows == TableAfter(kind, old(store.rows), call, 0)
              && r == match Complaint(kind, old(store.rows), call, 0, stored)
                      case Some(error) => Failure(error)
                      case None => Success(())
      ensures var call := Call.Delete(id);
              security.log == LogAfter(kind, old(store.rows), old(security.log), call, 0, stored,
                                       EntryOf(kind, old(store.rows), call, 0, actor, requestId, "soft deleted"))
    {
      var found := store.Get(id);
      if found.Failure? {
        return Failure(found.error);
      }
      var gone := store.Delete(id);
      if gone.Failure? {
        return gone;
      }
      var logged := security.Audit(actor, requestId, "delete", kind.entity, id, found.value.status, "deleted",
                                   "soft deleted", stored);
      if !logged {
        return Failure(AuditFailure);
      }
      r := Success(());
    }
  }
}
