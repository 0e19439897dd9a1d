/**
 The priority decision: its row, its revisions, and what one request reads and writes.
 A request prepares a copy of the row it read and later writes that copy back; both halves
 are functions here, so that the service methods and the interleaved runs share them.
 */
module Decisions {
  import opened Outcomes
  import opened StatusGraph

  const DRAFT := "draft"
  const REVIEWER := "reviewer"
  const ADMIN := "admin"

  /** The fields a business edit may change, after trimming and upper-casing. */
  datatype Business = Business(
    name: string, description: string, facility: string, owner: string, category: string,
    riskLevel: string, metricValue: real, metricUnit: string, effectiveAt: int,
    evidence: string, relatedCode: string)

  datatype Decision = Decision(
    code: string, business: Business, status: string, version: nat, preparedBy: string, deleted: bool)

  /** What a revision keeps of the whole row; seeded revisions keep only a reduced text. */
  datatype Snapshot =
    | Full(id: nat, code: string, business: Business, status: string, version: nat, preparedBy: string)
    | SeedText(code: string, status: string, evidence: string)

  datatype Revision = Revision(
    decisionId: nat, version: nat, status: string, evidence: string,
    reason: string, actor: string, requestId: string, snapshot: Snapshot)

  /** The two tables. Soft-deleted rows stay in `rows`; `revisions` is in insertion order. */
  datatype Tables = Tables(rows: map<nat, Decision>, revisions: seq<Revision>)

  datatype Call =
    | Create(code: string, business: Business, actor: string, requestId: string)
    | Update(id: nat, expected: nat, business: Business, actor: string, role: string, requestId: string)
    | Transition(id: nat, expected: nat, target: string, reason: string, actor: string, role: string, requestId: string)
    | Delete(id: nat, actor: string, requestId: string)
  {
    predicate Edits() { Update? || Transition? }
  }

  // ---------- reading ----------

  predicate Live(t: Tables, id: nat) {
    id in t.rows && !t.rows[id].deleted
  }

  function Find(t: Tables, id: nat): Option<Decision> {
    if Live(t, id) then Some(t.rows[id]) else None
  }

  /** The revisions of one decision, oldest first. */
  function History(revisions: seq<Revision>, id: nat): seq<Revision> {
    if revisions == [] then []
    else
      var last := |revisions| - 1;
      History(revisions[..last], id) + if revisions[last].decisionId == id then [revisions[last]] else []
  }

  predicate ValidFields(code: string, b: Business) {
    code != "" && b.name != "" && b.facility != "" && b.owner != "" && b.evidence != "" && b.relatedCode != ""
  }

  /** The first guard of the call that the row fails, in the order the service tests them. */
  function Objection(row: Decision, call: Call): Option<Error>
    requires !call.Create?
  {
    match call
    case Update(_, _, business, actor, role, _) =>
      if row.status != DRAFT then Some(DecisionLocked)
      else if actor != row.preparedBy && role != ADMIN then Some(NotDecisionOwner)
      else if !ValidFields(row.code, business) then Some(InvalidInput)
      else None
    case Transition(_, _, target, _, actor, role, _) =>
      if role != REVIEWER && role != ADMIN then Some(ReviewRole)
      else if actor == row.preparedBy then Some(SeparationOfDuty)
      else if !CanTransition(PRIORITY_DECISION_TRANSITIONS, row.status, target) then Some(InvalidTransition)
      else None
    case Delete(_, _, _) =>
      if row.status != DRAFT then Some(DecisionLocked) else None
  }

  function NewDraft(call: Call): Decision
    requires call.Create?
  {
    Decision(call.code, call.business, DRAFT, 1, call.actor, false)
  }

  /** The copy the request goes on to edit, once its guards have passed. */
  function Prepare(t: Tables, call: Call): Result<Decision> {
    if call.Create? then
      if ValidFields(call.code, call.business) then Success(NewDraft(call)) else Failure(InvalidInput)
    else
      match Find(t, call.id)
      case None => Failure(NotFound)
      case Some(row) =>
        match Objection(row, call)
        case Some(error) => Failure(error)
        case None => Success(row)
  }

  // ---------- writing ----------

  function Edited(copy: Decision, call: Call): Decision
    requires call.Edits()
  {
    if call.Update?
    then copy.(business := call.business, version := call.expected + 1)
    else copy.(status := call.target, version := call.expected + 1)
  }

  function NewRevision(id: nat, itemId: nat, item: Decision, reason: string, actor: string, requestId: string)
    : Revision
  {
    Revision(id, item.version, item.status, item.business.evidence, reason, actor, requestId,
             Full(itemId, item.code, item.business, item.status, item.version, item.preparedBy))
  }

  /** The revision a successful call inserts. A first snapshot is taken before the row has its id. */
  function RevisionOf(call: Call, copy: Decision, newId: nat): Revision
    requires !call.Delete?
  {
    match call
    case Create(_, _, actor, requestId) =>
      NewRevision(newId, 0, copy, "decision draft created", actor, requestId)
    case Update(id, _, _, actor, _, requestId) =>
      NewRevision(id, id, Edited(copy, call), "draft business fields updated", actor, requestId)
    case Transition(id, _, _, reason, actor, _, requestId) =>
      NewRevision(id, id, Edited(copy, call), reason, actor, requestId)
  }

  predicate IndexFree(revisions: seq<Revision>, r: Revision) {
    forall q | q in revisions :: q.decisionId != r.decisionId || q.version != r.version
  }

  predicate CodeFree(rows: map<nat, Decision>, code: string) {
    forall id | id in rows :: rows[id].code != code
  }

  function InsertWithRevision(t: Tables, id: nat, item: Decision, r: Revision): Result<Tables> {
    if !CodeFree(t.rows, item.code) || !IndexFree(t.revisions, r) then Failure(DuplicateKey)
    else Success(Tables(t.rows[id := item], t.revisions + [r]))
  }

  /** The conditional UPDATE writes every column but the id, code, preparer and deletion mark. */
  function UpdateWithRevision(t: Tables, id: nat, expected: nat, item: Decision, r: Revision): Result<Tables> {
    if !Live(t, id) || t.rows[id].version != expected then Failure(VersionConflict)
    else if !IndexFree(t.revisions, r) then Failure(DuplicateKey)
    else
      var row := t.rows[id].(business := item.business, status := item.status, version := item.version);
      Success(Tables(t.rows[id := row], t.revisions + [r]))
  }

  function SoftDelete(t: Tables, id: nat): Result<Tables> {
    if !Live(t, id) then Failure(NotFound)
    else Success(t.(rows := t.rows[id := t.rows[id].(deleted := true)]))
  }

  /** The write transaction of a call that holds `copy`, on tables that may have moved on since. */
  function Write(t: Tables, call: Call, copy: Decision, newId: nat): Result<Tables> {
    match call
    case Create(_, _, _, _) => InsertWithRevision(t, newId, copy, RevisionOf(call, copy, newId))
    case Delete(id, _, _) => SoftDelete(t, id)
    case _ => UpdateWithRevision(t, call.id, call.expected, Edited(copy, call), RevisionOf(call, copy, newId))
  }

  /** A call that runs alone: what it read is still there when it writes. */
  function Execute(t: Tables, call: Call, newId: nat): Result<Tables> {
    match Prepare(t, call)
    case Failure(error) => Failure(error)
    case Success(copy) => Write(t, call, copy, newId)
  }

  function RowId(call: Call, newId: nat): nat {
    if call.Create? then newId else call.id
  }

  // ---------- what the caller and the log get ----------

  datatype Response =
    | Item(item: Decision, revisions: seq<Revision>)
    | NoContent

  datatype AuditRow = AuditRow(
    actor: string, requestId: string, action: string, entityType: string, entityId: nat,
    before: string, after: string, detail: string)

  const ENTITY := "PriorityDecision"

  function Or(text: string, otherwise: string): string {
    if text == "" then otherwise else text
  }

  function AuditOf(call: Call, copy: Decision, id: nat): AuditRow {
    var actor, requestId := Or(call.actor, "system"), Or(call.requestId, "untracked");
    match call
    case Create(_, _, _, _) =>
      AuditRow(actor, requestId, "create", ENTITY, id, "", copy.status, "created")
    case Update(_, _, _, _, _, _) =>
      AuditRow(actor, requestId, "update", ENTITY, id, copy.status, copy.status, "updated business fields")
    case Transition(_, _, target, reason, _, _, _) =>
      AuditRow(actor, requestId, "transition", ENTITY, id, copy.status, target, reason)
    case Delete(_, _, _) =>
      AuditRow(actor, requestId, "delete", ENTITY, id, copy.status, "deleted", "soft deleted")
  }
}
