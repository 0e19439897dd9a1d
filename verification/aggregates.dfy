/**
 Bridge assets, inspection rounds and defect findings: one protocol over versioned rows, which differs
 only in its transition graph and initial status. Requests overlap as they do for priority decisions.
 */
module Aggregates {
  import opened Outcomes
  import opened StatusGraph
  import Decisions

  type Business = Decisions.Business

  datatype AnyKind = AnyKind(entity: string, graph: Graph, initial: string)

  type Kind = kind: AnyKind | kind.entity != "" witness AnyKind("Entity", map[], "")

  const BRIDGE_ASSET: Kind := AnyKind("BridgeAsset", BRIDGE_ASSET_TRANSITIONS, "active")
  const INSPECTION_ROUND: Kind := AnyKind("InspectionRound", INSPECTION_ROUND_TRANSITIONS, "planned")
  const DEFECT_FINDING: Kind := AnyKind("DefectFinding", DEFECT_FINDING_TRANSITIONS, "new")

  datatype Row = Row(code: string, business: Business, status: string, version: nat, deleted: bool)

  type Table = map<nat, Row>

  datatype Call =
    | Create(code: string, business: Business)
    | Update(id: nat, expected: nat, business: Business)
    | Transition(id: nat, expected: nat, target: string)
    | Delete(id: nat)
  {
    predicate Edits() { Update? || Transition? }
  }

  predicate Live(rows: Table, id: nat) {
    id in rows && !rows[id].deleted
  }

  predicate ValidFields(code: string, b: Business) {
    code != "" && b.name != "" && b.facility != "" && b.owner != ""
  }

  function Objection(kind: Kind, row: Row, call: Call): Option<Error>
    requires !call.Create?
  {
    match call
    case Update(_, _, business) => if ValidFields(row.code, business) then None else Some(InvalidInput)
    case Transition(_, _, target) =>
      if CanTransition(kind.graph, row.status, target) then None else Some(InvalidTransition)
    case Delete(_) => None
  }

  function Prepare(kind: Kind, rows: Table, call: Call): Result<Row> {
    if call.Create? then
      if ValidFields(call.code, call.business) then Success(Row(call.code, call.business, kind.initial, 1, false))
      else Failure(InvalidInput)
    else if !Live(rows, call.id) then Failure(NotFound)
    else
      match Objection(kind, rows[call.id], call)
      case Some(error) => Failure(error)
      case None => Success(rows[call.id])
  }

  /** The copy as it is handed to the store. A business edit carries the status it read along with it. */
  function Edited(copy: Row, call: Call): Row {
    match call
    case Update(_, expected, business) => copy.(business := business, version := expected + 1)
    case Transition(_, expected, target) => copy.(status := target, version := expected + 1)
    case _ => copy
  }

  predicate CodeFree(rows: Table, code: string) {
    forall id | id in rows :: rows[id].code != code
  }

  /** The conditional UPDATE writes every column but the id, the code and the deletion mark. */
  function Write(rows: Table, call: Call, copy: Row, newId: nat): Result<Table> {
    var item := Edited(copy, call);
    match call
    case Create(code, _) => if CodeFree(rows, code) then Success(rows[newId := item]) else Failure(DuplicateKey)
    case Delete(id) => if Live(rows, id) then Success(rows[id := rows[id].(deleted := true)]) else Failure(NotFound)
    case _ =>
      if Live(rows, call.id) && rows[call.id].version == call.expected
      then Success(rows[call.id := item.(code := rows[call.id].code, deleted := rows[call.id].deleted)])
      else Failure(VersionConflict)
  }

  function Execute(kind: Kind, rows: Table, call: Call, newId: nat): Result<Table> {
    match Prepare(kind, rows, call)
    case Failure(error) => Failure(error)
    case Success(copy) => Write(rows, call, copy, newId)
  }

  /**
   What each call, run alone, comes to: the first thing wrong with it, in the order it is looked for, or the one row
   it leaves changed.
   */
  lemma CallsAlone(kind: Kind, rows: Table, call: Call, newId: nat)
    ensures Execute(kind, rows, call, newId) ==
            match call
            case Create(code, b) =>
              if code == "" || b.name == "" || b.facility == "" || b.owner == "" then Failure(InvalidInput)
              else if exists id :: id in rows && rows[id].code == code then Failure(DuplicateKey)
              else Success(rows[newId := Row(code, b, kind.initial, 1, false)])
            case Update(id, expected, b) =>
              if id !in rows || rows[id].deleted then Failure(NotFound)
              else if rows[id].code == "" || b.name == "" || b.facility == "" || b.owner == ""
              then Failure(InvalidInput)
              else if rows[id].version != expected then Failure(VersionConflict)
              else Success(rows[id := Row(rows[id].code, b, rows[id].status, expected + 1, false)])
            case Transition(id, expected, target) =>
              if id !in rows || rows[id].deleted then Failure(NotFound)
              else if !CanTransition(kind.graph, rows[id].status, target) then Failure(InvalidTransition)
              else if rows[id].version != expected then Failure(VersionConflict)
              else Success(rows[id := Row(rows[id].code, rows[id].business, target, expected + 1, false)])
            case Delete(id) =>
              if id !in rows || rows[id].deleted then Failure(NotFound)
              else Success(rows[id := Row(rows[id].code, rows[id].business, rows[id].status, rows[id].version, true)])
  {
    hide CanTransition;
    match call
    case Create(code, _) => assert CodeFree(rows, code) <==> !exists id :: id in rows && rows[id].code == code;
    case _ =>
  }

  /**
   What is written from a copy, however stale: an edit needs the row live at the version sent, and replaces the
   business fields and the status by those of the copy, as the call changed them.
   */
  lemma StaleWrites(rows: Table, call: Call, copy: Row, newId: nat)
    ensures Write(rows, call, copy, newId) ==
            match call
            case Create(code, _) =>
              if exists id :: id in rows && rows[id].code == code then Failure(DuplicateKey)
              else Success(rows[newId := copy])
            case Update(id, expected, b) =>
              if id in rows && !rows[id].deleted && rows[id].version == expected
              then Success(rows[id := Row(rows[id].code, b, copy.status, expected + 1, false)])
              else Failure(VersionConflict)
            case Transition(id, expected, target) =>
              if id in rows && !rows[id].deleted && rows[id].version == expected
              then Success(rows[id := Row(rows[id].code, copy.business, target, expected + 1, false)])
              else Failure(VersionConflict)
            case Delete(id) =>
              if id in rows && !rows[id].deleted
              then Success(rows[id := Row(rows[id].code, rows[id].business, rows[id].status, rows[id].version, true)])
              else Failure(NotFound)
  {
    match call
    case Create(code, _) => assert CodeFree(rows, code) <==> !exists id :: id in rows && rows[id].code == code;
    case _ =>
  }

  // ---------- overlapping requests ----------

  datatype Phase = Arrived | Checked(copy: Row) | Committed | Failed(error: Error)

  datatype Flight = Flight(call: Call, phase: Phase)

  datatype Commit = Commit(k: nat, call: Call, id: nat, found: Option<Row>, left: Row)

  datatype Machine = Machine(rows: Table, flights: map<nat, Flight>, commits: seq<Commit>)

  datatype Event = Arrive(k: nat, call: Call) | Check(k: nat) | Transact(k: nat, newId: nat) | Break(k: nat)

  ghost predicate Enabled(m: Machine, e: Event) {
    match e
    case Arrive(k, _) => k !in m.flights
    case Check(k) => k in m.flights && m.flights[k].phase.Arrived?
    case Transact(k, newId) =>
      k in m.flights && m.flights[k].phase.Checked? && (m.flights[k].call.Create? ==> newId !in m.rows)
    case Break(k) => k in m.flights && (m.flights[k].phase.Arrived? || m.flights[k].phase.Checked?)
  }

  function Move(m: Machine, k: nat, phase: Phase): Machine
    requires k in m.flights
  {
    m.(flights := m.flights[k := m.flights[k].(phase := phase)])
  }

  function RowId(call: Call, newId: nat): nat {
    if call.Create? then newId else call.id
  }

  function AfterTransact(m: Machine, k: nat, newId: nat): Machine
    requires k in m.flights && m.flights[k].phase.Checked?
  {
    var Flight(call, Checked(copy)) := m.flights[k];
    match Write(m.rows, call, copy, newId)
    case Failure(error) => Move(m, k, Failed(error))
    case Success(rows) =>
      var id := RowId(call, newId);
      var found := if id in m.rows then Some(m.rows[id]) else None;
      Move(m, k, Committed).(rows := rows, commits := m.commits + [Commit(k, call, id, found, rows[id])])
  }

  ghost function Fire(kind: Kind, m: Machine, e: Event): Machine
    requires Enabled(m, e)
  {
    match e
    case Arrive(k, call) => m.(flights := m.flights[k := Flight(call, Arrived)])
    case Check(k) =>
      (match Prepare(kind, m.rows, m.flights[k].call)
       case Success(copy) => Move(m, k, Checked(copy))
       case Failure(error) => Move(m, k, Failed(error)))
    case Transact(k, newId) => AfterTransact(m, k, newId)
    case Break(k) => Move(m, k, Failed(StorageFailure))
  }

  /** A request that takes all its steps in a row. */
  ghost function Uninterrupted(kind: Kind, m: Machine, k: nat, call: Call, newId: nat): (m': Machine)
    requires k !in m.flights && newId !in m.rows
    ensures k in m'.flights
  {
    var checked := Fire(kind, Fire(kind, m, Arrive(k, call)), Check(k));
    if checked.flights[k].phase.Checked? then Fire(kind, checked, Transact(k, newId)) else checked
  }

  /** Step by step it does what the whole call does: the same rows, the same error, and a commit iff it wrote. */
  lemma UninterruptedRequestIsTheCall(kind: Kind, m: Machine, k: nat, call: Call, newId: nat)
    requires k !in m.flights && newId !in m.rows
    ensures var m' := Uninterrupted(kind, m, k, call, newId);
            match Execute(kind, m.rows, call, newId)
            case Failure(error) =>
              m'.rows == m.rows && m'.commits == m.commits && m'.flights[k].phase == Failed(error)
            case Success(rows) =>
              var id := if call.Create? then newId else call.id;
              && m'.rows == rows && m'.flights[k].phase == Committed && id in rows
              && m'.commits
                 == m.commits + [Commit(k, call, id, if id in m.rows then Some(m.rows[id]) else None, rows[id])]
  {
    hide ValidFields, CodeFree, CanTransition;
  }

  ghost predicate Step(kind: Kind, m: Machine, e: Event, m': Machine) {
    Enabled(m, e) && m' == Fire(kind, m, e)
  }

  ghost predicate Run(kind: Kind, ms: seq<Machine>, es: seq<Event>) {
    && |ms| == |es| + 1
    && ms[0].flights == map[] && ms[0].commits == []
    && forall i :: 0 <= i < |es| ==> Step(kind, ms[i], es[i], ms[i + 1])
  }

  /** The version an edit carries has been reached when it arrives. */
  ghost predicate Observed(rows: Table, call: Call) {
    call.Edits() ==> call.id in rows && call.expected <= rows[call.id].version
  }

  ghost predicate ObservedRun(kind: Kind, ms: seq<Machine>, es: seq<Event>) {
    && Run(kind, ms, es)
    && forall i :: 0 <= i < |es| && es[i].Arrive? ==> Observed(ms[i].rows, es[i].call)
  }

  // ---------- what holds in every run, whatever versions the clients send ----------

  ghost predicate RowExtends(a: Row, b: Row) {
    && a.code == b.code && a.version <= b.version
    && (a.version == b.version ==> b == a.(deleted := b.deleted))
    && (a.deleted ==> a == b)
  }

  ghost predicate Extends(rows: Table, rows': Table) {
    forall id :: id in rows ==> id in rows' && RowExtends(rows[id], rows'[id])
  }

  ghost predicate DistinctCodes(rows: Table) {
    forall i, j :: i in rows && j in rows && rows[i].code == rows[j].code ==> i == j
  }

  /** The copy in a request's hands: its guards passed on it, and the row has only moved on since. */
  ghost predicate FlightOk(kind: Kind, rows: Table, f: Flight) {
    f.phase.Checked? ==>
      var copy := f.phase.copy;
      if f.call.Create? then Prepare(kind, rows, f.call) == Success(copy)
      else
        && f.call.id in rows && RowExtends(copy, rows[f.call.id]) && !copy.deleted
        && Objection(kind, copy, f.call) == None
  }

  /** The statuses a row has been written with since the start, first the one it started or was created with. */
  function Statuses(start: Table, commits: seq<Commit>, id: nat): seq<string> {
    if commits == [] then if id in start then [start[id].status] else []
    else
      var c := commits[|commits| - 1];
      Statuses(start, commits[..|commits| - 1], id) + if c.id == id && !c.call.Delete? then [c.left.status] else []
  }

  /** One status for each version since the start, the last of them the row's own. */
  ghost predicate Counted(kind: Kind, start: Table, row: Row, id: nat, s: seq<string>) {
    && 0 < |s| && s[|s| - 1] == row.status
    && s[0] == (if id in start then start[id].status else kind.initial)
    && row.version == |s| - 1 + (if id in start then start[id].version else 1)
  }

  ghost predicate Inv(kind: Kind, start: Table, m: Machine) {
    && (forall k :: k in m.flights ==> FlightOk(kind, m.rows, m.flights[k]))
    && (forall id :: id in m.rows ==> Counted(kind, start, m.rows[id], id, Statuses(start, m.commits, id)))
    && (forall id :: id in start ==> id in m.rows)
    && (forall id :: id !in m.rows ==> Statuses(start, m.commits, id) == [])
    && (DistinctCodes(start) ==> DistinctCodes(m.rows))
  }

  lemma StatusesOneMore(start: Table, commits: seq<Commit>, c: Commit, id: nat)
    ensures Statuses(start, commits + [c], id)
            == Statuses(start, commits, id) + if c.id == id && !c.call.Delete? then [c.left.status] else []
  {
    assert (commits + [c])[..|commits|] == commits;
  }

  /** A write moves one row, and an edit of it takes the version up by one. */
  lemma WriteMovesItsRow(kind: Kind, rows: Table, f: Flight, newId: nat)
    requires f.phase.Checked? && FlightOk(kind, rows, f) && (f.call.Create? ==> newId !in rows)
    requires Write(rows, f.call, f.phase.copy, newId).Success?
    ensures var rows' := Write(rows, f.call, f.phase.copy, newId).value;
            && rows'.Keys == rows.Keys + {RowId(f.call, newId)}
            && (forall j :: j in rows && j != RowId(f.call, newId) ==> rows'[j] == rows[j])
            && (f.call.Create? ==> rows'[newId].status == kind.initial && rows'[newId].version == 1)
            && (f.call.Delete? ==> f.call.id in rows && rows'[f.call.id] == rows[f.call.id].(deleted := true))
            && (f.call.Edits() ==>
                  f.call.id in rows && rows'[f.call.id].version == rows[f.call.id].version + 1)
    ensures Extends(rows, Write(rows, f.call, f.phase.copy, newId).value)
    ensures DistinctCodes(rows) ==> DistinctCodes(Write(rows, f.call, f.phase.copy, newId).value)
  {
    hide ValidFields;
  }

  lemma FlightStaysOk(kind: Kind, rows: Table, rows': Table, f: Flight)
    requires FlightOk(kind, rows, f) && Extends(rows, rows')
    ensures FlightOk(kind, rows', f)
  {
    if !f.call.Create? && f.call.id in rows {
      assert RowExtends(rows[f.call.id], rows'[f.call.id]);
    }
  }

  lemma TransactCounts(kind: Kind, start: Table, m: Machine, k: nat, newId: nat, id: nat)
    requires Inv(kind, start, m) && Enabled(m, Transact(k, newId))
    requires Write(m.rows, m.flights[k].call, m.flights[k].phase.copy, newId).Success?
    ensures var m', s := AfterTransact(m, k, newId), Statuses(start, AfterTransact(m, k, newId).commits, id);
            if id in m'.rows then Counted(kind, start, m'.rows[id], id, s) else s == []
  {
    hide Write, FlightOk, Statuses, DistinctCodes, Extends, Counted;
    var m', f := AfterTransact(m, k, newId), m.flights[k];
    var c, s := m'.commits[|m.commits|], Statuses(start, m.commits, id);
    WriteMovesItsRow(kind, m.rows, f, newId);
    StatusesOneMore(start, m.commits, c, id);
    if c.id != id || f.call.Delete? {
      assert Statuses(start, m'.commits, id) == s;
    }
    if c.id == id {
      NextIsCounted(kind, start, if id in m.rows then Some(m.rows[id]) else None, m'.rows[id], id, s);
    }
  }

  /** A first row, a deleted row and a row with one more version are counted. */
  lemma NextIsCounted(kind: Kind, start: Table, before: Option<Row>, after: Row, id: nat, s: seq<string>)
    requires before.Some? ==> Counted(kind, start, before.value, id, s)
    requires before.None? ==> s == [] && id !in start
    ensures before.None? && after.status == kind.initial && after.version == 1 ==>
              Counted(kind, start, after, id, s + [after.status])
    ensures before.Some? && after == before.value.(deleted := true) ==> Counted(kind, start, after, id, s)
    ensures before.Some? && after.version == before.value.version + 1 ==>
              Counted(kind, start, after, id, s + [after.status])
  {
  }

  lemma TransactKeepsInv(kind: Kind, start: Table, m: Machine, k: nat, newId: nat)
    requires Inv(kind, start, m) && Enabled(m, Transact(k, newId))
    ensures Inv(kind, start, AfterTransact(m, k, newId))
    ensures Extends(m.rows, AfterTransact(m, k, newId).rows)
  {
    hide Counted, Statuses, FlightOk, Extends, DistinctCodes, Write;
    var m', f := AfterTransact(m, k, newId), m.flights[k];
    if Write(m.rows, f.call, f.phase.copy, newId).Success? {
      WriteMovesItsRow(kind, m.rows, f, newId);
      forall id: nat {
        TransactCounts(kind, start, m, k, newId, id);
      }
    } else {
      RowsExtendThemselves(m.rows);
    }
    forall j | j in m'.flights
      ensures FlightOk(kind, m'.rows, m'.flights[j])
    {
      if j == k {
        PastCommitIsOk(kind, m'.rows, m'.flights[k]);
      } else {
        FlightStaysOk(kind, m.rows, m'.rows, m.flights[j]);
      }
    }
  }

  lemma RowsExtendThemselves(rows: Table)
    ensures Extends(rows, rows)
  {
  }

  lemma PastCommitIsOk(kind: Kind, rows: Table, f: Flight)
    requires f.phase.Committed? || f.phase.Failed?
    ensures FlightOk(kind, rows, f)
  {
  }

  lemma StepKeepsInv(kind: Kind, start: Table, m: Machine, e: Event, m': Machine)
    requires Inv(kind, start, m) && Step(kind, m, e, m')
    ensures Inv(kind, start, m') && Extends(m.rows, m'.rows)
  {
    hide Counted, Statuses, AfterTransact, Extends, DistinctCodes;
    RowsExtendThemselves(m.rows);
    if e.Transact? {
      TransactKeepsInv(kind, start, m, e.k, e.newId);
    }
  }

  lemma {:induction false} RunKeepsInv(kind: Kind, ms: seq<Machine>, es: seq<Event>, i: nat)
    requires Run(kind, ms, es) && i < |ms|
    ensures Inv(kind, ms[0].rows, ms[i])
  {
    hide Step;
    if i > 0 {
      RunKeepsInv(kind, ms, es, i - 1);
      assert Step(kind, ms[i - 1], es[i - 1], ms[i]);
      StepKeepsInv(kind, ms[0].rows, ms[i - 1], es[i - 1], ms[i]);
    }
  }

  /** No row goes, no code changes, no version falls, a version fixes its content, and a deleted row is frozen. */
  lemma {:induction false} RunExtends(kind: Kind, ms: seq<Machine>, es: seq<Event>, i: nat, j: nat)
    requires Run(kind, ms, es) && i <= j < |ms|
    ensures Extends(ms[i].rows, ms[j].rows)
    decreases j
  {
    hide Step, Inv;
    if i < j {
      RunExtends(kind, ms, es, i, j - 1);
      RunKeepsInv(kind, ms, es, j - 1);
      assert Step(kind, ms[j - 1], es[j - 1], ms[j]);
      StepKeepsInv(kind, ms[0].rows, ms[j - 1], es[j - 1], ms[j]);
    }
  }

  /** The version of a row counts the writes made to it, however the requests overlapped. */
  lemma VersionsCountTheWrites(kind: Kind, ms: seq<Machine>, es: seq<Event>, i: nat, id: nat)
    requires Run(kind, ms, es) && i < |ms| && id in ms[i].rows
    ensures Counted(kind, ms[0].rows, ms[i].rows[id], id, Statuses(ms[0].rows, ms[i].commits, id))
  {
    hide Run, Counted, Statuses, FlightOk, DistinctCodes;
    RunKeepsInv(kind, ms, es, i);
  }

  /** No two rows, live or deleted, at any time of the run, share a code. */
  lemma CodesAreNeverReused(kind: Kind, ms: seq<Machine>, es: seq<Event>, i: nat, j: nat, a: nat, b: nat)
    requires Run(kind, ms, es) && DistinctCodes(ms[0].rows)
    requires i <= j < |ms| && a in ms[i].rows && b in ms[j].rows && ms[i].rows[a].code == ms[j].rows[b].code
    ensures a == b
  {
    hide Run, Counted, Statuses, FlightOk;
    RunExtends(kind, ms, es, i, j);
    RunKeepsInv(kind, ms, es, j);
  }

  /**
   The exact condition, in any run: a committed edit overwrites the very row its guards examined if and only if
   the version sent is not above the version read.
   */
  lemma WriteIsFreshExactlyWhen(kind: Kind, ms: seq<Machine>, es: seq<Event>, i: nat, k: nat)
    requires Run(kind, ms, es) && i < |ms| && k in ms[i].flights
    requires ms[i].flights[k].phase.Checked? && ms[i].flights[k].call.Edits()
    requires Write(ms[i].rows, ms[i].flights[k].call, ms[i].flights[k].phase.copy, 0).Success?
    ensures var Flight(call, Checked(copy)) := ms[i].flights[k];
            call.id in ms[i].rows && (copy == ms[i].rows[call.id] <==> call.expected <= copy.version)
  {
    hide Run, Counted, Statuses, DistinctCodes;
    RunKeepsInv(kind, ms, es, i);
    assert FlightOk(kind, ms[i].rows, ms[i].flights[k]);
  }

  // ---------- statuses ----------

  /** Every status in the table and in the requests' hands is one of the graph's. */
  ghost predicate Known(kind: Kind, m: Machine) {
    && (forall id :: id in m.rows ==> m.rows[id].status in kind.graph)
    && (forall k :: k in m.flights && m.flights[k].phase.Checked? ==> m.flights[k].phase.copy.status in kind.graph)
  }

  lemma StepKeepsKnown(kind: Kind, m: Machine, e: Event, m': Machine)
    requires Closed(kind.graph) && kind.initial in kind.graph
    requires Known(kind, m) && Step(kind, m, e, m')
    requires e.Transact? ==> FlightOk(kind, m.rows, m.flights[e.k])
    ensures Known(kind, m')
  {
    hide ValidFields, CodeFree;
  }

  lemma {:induction false} RunKeepsKnown(kind: Kind, ms: seq<Machine>, es: seq<Event>, i: nat)
    requires Closed(kind.graph) && kind.initial in kind.graph
    requires Run(kind, ms, es) && i < |ms| && Known(kind, ms[0])
    ensures Known(kind, ms[i])
  {
    hide Step, Closed, Counted, Statuses, DistinctCodes, FlightOk, Known;
    if i > 0 {
      RunKeepsKnown(kind, ms, es, i - 1);
      RunKeepsInv(kind, ms, es, i - 1);
      assert Step(kind, ms[i - 1], es[i - 1], ms[i]);
      TransactingFlight(kind, ms[i - 1], es[i - 1], ms[i]);
      StepKeepsKnown(kind, ms[i - 1], es[i - 1], ms[i]);
    }
  }

  lemma TransactingFlight(kind: Kind, m: Machine, e: Event, m': Machine)
    requires Step(kind, m, e, m')
    ensures e.Transact? ==> e.k in m.flights
  {
  }

  /** Started on known statuses, no table ever holds a status its graph does not know, whatever clients send. */
  lemma StatusesAreKnown(kind: Kind, ms: seq<Machine>, es: seq<Event>, i: nat, id: nat)
    requires kind in {BRIDGE_ASSET, INSPECTION_ROUND, DEFECT_FINDING}
    requires Run(kind, ms, es) && i < |ms| && id in ms[i].rows
    requires forall j :: j in ms[0].rows ==> ms[0].rows[j].status in kind.graph
    ensures ms[i].rows[id].status in kind.graph
  {
    hide Step, Closed;
    BridgeAssetGraphIsClosed();
    InspectionRoundGraphIsClosed();
    DefectFindingGraphIsClosed();
    RunKeepsKnown(kind, ms, es, i);
  }

  // ---------- what rests on reached versions ----------

  /** The version an edit carries has been reached, and once the row is read it is not above what was read. */
  ghost predicate Seen(rows: Table, f: Flight) {
    f.call.Edits() ==>
      && (f.phase.Arrived? ==> Observed(rows, f.call))
      && (f.phase.Checked? ==> f.call.expected <= f.phase.copy.version)
  }

  /** Each status is the one before it or one the graph allows after it. */
  ghost predicate Walk(graph: Graph, s: seq<string>) {
    forall i :: 0 <= i < |s| - 1 ==> s[i] == s[i + 1] || CanTransition(graph, s[i], s[i + 1])
  }

  /** A business edit leaves the status as it found it; a transition follows the graph from the status it found. */
  ghost predicate Lawful(kind: Kind, c: Commit) {
    match c.call
    case Update(_, _, _) => c.found.Some? && c.left.status == c.found.value.status
    case Transition(_, _, target) =>
      c.found.Some? && c.left.status == target && CanTransition(kind.graph, c.found.value.status, target)
    case _ => true
  }

  ghost predicate AllLawful(kind: Kind, start: Table, m: Machine) {
    && (forall k :: k in m.flights ==> Seen(m.rows, m.flights[k]))
    && (forall id: nat :: Walk(kind.graph, Statuses(start, m.commits, id)))
    && (forall c :: c in m.commits ==> Lawful(kind, c))
  }

  /**
   The write of an edit whose version had been reached overwrites the very row that was checked; so a business
   edit, though it rewrites the status column, writes the status that is there.
   */
  lemma WriteIsFresh(kind: Kind, rows: Table, f: Flight)
    requires f.phase.Checked? && FlightOk(kind, rows, f) && Seen(rows, f) && f.call.Edits()
    requires Live(rows, f.call.id) && rows[f.call.id].version == f.call.expected
    ensures f.phase.copy == rows[f.call.id]
  {
  }

  lemma SeenStays(rows: Table, rows': Table, f: Flight)
    requires Seen(rows, f) && Extends(rows, rows')
    ensures Seen(rows', f)
  {
    if f.call.Edits() && f.phase.Arrived? {
      assert RowExtends(rows[f.call.id], rows'[f.call.id]);
    }
  }

  lemma CommitIsLawful(kind: Kind, m: Machine, k: nat, newId: nat)
    requires Enabled(m, Transact(k, newId)) && FlightOk(kind, m.rows, m.flights[k]) && Seen(m.rows, m.flights[k])
    requires Write(m.rows, m.flights[k].call, m.flights[k].phase.copy, newId).Success?
    ensures Lawful(kind, AfterTransact(m, k, newId).commits[|m.commits|])
  {
    hide ValidFields, CodeFree;
    if m.flights[k].call.Edits() {
      WriteIsFresh(kind, m.rows, m.flights[k]);
    }
  }

  lemma WalkOneMore(graph: Graph, s: seq<string>, status: string)
    requires Walk(graph, s) && (s != [] ==> s[|s| - 1] == status || CanTransition(graph, s[|s| - 1], status))
    ensures Walk(graph, s + [status])
  {
    hide CanTransition;
  }

  lemma TransactWalks(kind: Kind, start: Table, m: Machine, k: nat, newId: nat, id: nat)
    requires Inv(kind, start, m) && AllLawful(kind, start, m) && Enabled(m, Transact(k, newId))
    requires Write(m.rows, m.flights[k].call, m.flights[k].phase.copy, newId).Success?
    ensures Walk(kind.graph, Statuses(start, AfterTransact(m, k, newId).commits, id))
  {
    CommitIsLawful(kind, m, k, newId);
    hide Write, FlightOk, Statuses, DistinctCodes, Extends, Walk, Seen, CanTransition;
    var m', f := AfterTransact(m, k, newId), m.flights[k];
    var c, s := m'.commits[|m.commits|], Statuses(start, m.commits, id);
    WriteMovesItsRow(kind, m.rows, f, newId);
    StatusesOneMore(start, m.commits, c, id);
    if c.id == id && !c.call.Delete? {
      assert id in m.rows ==> Counted(kind, start, m.rows[id], id, s);
      WalkOneMore(kind.graph, s, c.left.status);
    } else {
      assert Statuses(start, m'.commits, id) == s;
    }
  }

  lemma TransactKeepsLawful(kind: Kind, start: Table, m: Machine, k: nat, newId: nat)
    requires Inv(kind, start, m) && AllLawful(kind, start, m) && Enabled(m, Transact(k, newId))
    ensures AllLawful(kind, start, AfterTransact(m, k, newId))
  {
    TransactKeepsInv(kind, start, m, k, newId);
    TransactCommitsLawfully(kind, start, m, k, newId);
    hide Inv, Statuses, Extends, Walk, Seen, Write, Lawful;
    var m' := AfterTransact(m, k, newId);
    forall j | j in m'.flights
      ensures Seen(m'.rows, m'.flights[j])
    {
      if j == k {
        PastCommitIsSeen(m'.rows, m'.flights[k]);
      } else {
        SeenStays(m.rows, m'.rows, m.flights[j]);
      }
    }
  }

  lemma TransactCommitsLawfully(kind: Kind, start: Table, m: Machine, k: nat, newId: nat)
    requires Inv(kind, start, m) && AllLawful(kind, start, m) && Enabled(m, Transact(k, newId))
    ensures var commits := AfterTransact(m, k, newId).commits;
            && (forall id: nat :: Walk(kind.graph, Statuses(start, commits, id)))
            && (forall c :: c in commits ==> Lawful(kind, c))
  {
    hide Inv, Statuses, Walk, Seen, Write, Lawful;
    if Write(m.rows, m.flights[k].call, m.flights[k].phase.copy, newId).Success? {
      FlightsAreOk(kind, start, m, k);
      CommitIsLawful(kind, m, k, newId);
      forall id: nat {
        TransactWalks(kind, start, m, k, newId, id);
      }
    }
  }

  lemma FlightsAreOk(kind: Kind, start: Table, m: Machine, k: nat)
    requires Inv(kind, start, m) && k in m.flights
    ensures FlightOk(kind, m.rows, m.flights[k])
  {
  }

  lemma PastCommitIsSeen(rows: Table, f: Flight)
    requires f.phase.Committed? || f.phase.Failed?
    ensures Seen(rows, f)
  {
  }

  lemma StepKeepsLawful(kind: Kind, start: Table, m: Machine, e: Event, m': Machine)
    requires Inv(kind, start, m) && AllLawful(kind, start, m) && Step(kind, m, e, m')
    requires e.Arrive? ==> Observed(m.rows, e.call)
    ensures AllLawful(kind, start, m')
  {
    hide Inv, Statuses, AfterTransact, Walk, Lawful;
    if e.Transact? {
      TransactKeepsLawful(kind, start, m, e.k, e.newId);
    }
  }

  lemma {:induction false} RunKeepsLawful(kind: Kind, ms: seq<Machine>, es: seq<Event>, i: nat)
    requires ObservedRun(kind, ms, es) && i < |ms|
    ensures AllLawful(kind, ms[0].rows, ms[i])
  {
    hide Step, Observed, Inv;
    if i > 0 {
      RunKeepsLawful(kind, ms, es, i - 1);
      RunKeepsInv(kind, ms, es, i - 1);
      assert Step(kind, ms[i - 1], es[i - 1], ms[i]);
      StepKeepsLawful(kind, ms[0].rows, ms[i - 1], es[i - 1], ms[i]);
    }
  }

  /** With reached versions the statuses of a row walk the graph from the one it started or was created with. */
  lemma StatusesWalkTheGraph(kind: Kind, ms: seq<Machine>, es: seq<Event>, i: nat, id: nat)
    requires ObservedRun(kind, ms, es) && i < |ms| && id in ms[i].rows
    ensures var s := Statuses(ms[0].rows, ms[i].commits, id);
            Walk(kind.graph, s) && Counted(kind, ms[0].rows, ms[i].rows[id], id, s)
  {
    hide Run, Observed, Counted, Walk, Statuses, Lawful, Seen;
    RunKeepsLawful(kind, ms, es, i);
    VersionsCountTheWrites(kind, ms, es, i, id);
  }

  /** No committed business edit changed a status, and every committed transition followed the graph. */
  lemma CommitsAreLawful(kind: Kind, ms: seq<Machine>, es: seq<Event>, i: nat, c: Commit)
    requires ObservedRun(kind, ms, es) && i < |ms| && c in ms[i].commits
    ensures Lawful(kind, c)
  {
    hide ObservedRun, Walk, Statuses, Lawful, Seen;
    RunKeepsLawful(kind, ms, es, i);
  }

  // ---------- serialisation ----------

  /** The committed calls run one at a time, each alone, in commit order; none may be refused. */
  function Replay(kind: Kind, start: Table, commits: seq<Commit>): Option<Table> {
    if commits == [] then Some(start)
    else
      var c := commits[|commits| - 1];
      match Replay(kind, start, commits[..|commits| - 1])
      case None => None
      case Some(rows) =>
        match Execute(kind, rows, c.call, c.id)
        case Failure(_) => None
        case Success(rows') => Some(rows')
  }

  lemma CommitIsTheCallAlone(kind: Kind, rows: Table, f: Flight, newId: nat)
    requires f.phase.Checked? && FlightOk(kind, rows, f) && Seen(rows, f)
    requires Write(rows, f.call, f.phase.copy, newId).Success?
    ensures Execute(kind, rows, f.call, RowId(f.call, newId)) == Write(rows, f.call, f.phase.copy, newId)
  {
    hide ValidFields, CodeFree;
    if f.call.Edits() {
      WriteIsFresh(kind, rows, f);
    }
  }

  lemma StepIsReplayed(kind: Kind, start: Table, m: Machine, e: Event, m': Machine)
    requires Inv(kind, start, m) && AllLawful(kind, start, m) && Step(kind, m, e, m')
    requires Replay(kind, start, m.commits) == Some(m.rows)
    ensures Replay(kind, start, m'.commits) == Some(m'.rows)
  {
    hide Write, Prepare, FlightOk, Seen, Execute, Replay, Counted, Statuses, Lawful, Walk, DistinctCodes;
    if e.Transact? && Write(m.rows, m.flights[e.k].call, m.flights[e.k].phase.copy, e.newId).Success? {
      CommitIsTheCallAlone(kind, m.rows, m.flights[e.k], e.newId);
      ReplayOneMore(kind, start, m.commits, m'.commits[|m.commits|]);
    }
  }

  lemma ReplayOneMore(kind: Kind, start: Table, commits: seq<Commit>, c: Commit)
    requires Replay(kind, start, commits).Some?
    ensures Replay(kind, start, commits + [c]) ==
            match Execute(kind, Replay(kind, start, commits).value, c.call, c.id)
            case Failure(_) => None
            case Success(rows) => Some(rows)
  {
    hide Execute;
    assert (commits + [c])[..|commits|] == commits;
  }

  /** Every overlapping run leaves the rows that its committed calls leave when run one at a time in commit order. */
  lemma {:induction false} RunsAreSerialisable(kind: Kind, ms: seq<Machine>, es: seq<Event>, i: nat)
    requires ObservedRun(kind, ms, es) && i < |ms|
    ensures Replay(kind, ms[0].rows, ms[i].commits) == Some(ms[i].rows)
  {
    hide Step, Observed, Inv, AllLawful, Execute;
    if i > 0 {
      RunsAreSerialisable(kind, ms, es, i - 1);
      RunKeepsInv(kind, ms, es, i - 1);
      RunKeepsLawful(kind, ms, es, i - 1);
      assert Step(kind, ms[i - 1], es[i - 1], ms[i]);
      StepIsReplayed(kind, ms[0].rows, ms[i - 1], es[i - 1], ms[i]);
    }
  }
}
