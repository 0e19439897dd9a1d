/**
 Overlapping requests. Each request reads, later writes, later still appends its audit row, and at last reads
 its row and revisions again to answer; between any two of these steps every other request may take its own.
 */
module Interleaving {
  import opened Outcomes
  import opened Decisions
  import opened RevisionChain

  /** Where a request stands: `Logged` has its audit append behind it, `Replying` the first query of its answer. */
  datatype Phase =
    | Arrived
    | Checked(copy: Decision)
    | Written(entry: AuditRow)
    | Logged(entry: AuditRow)
    | Replying(entry: AuditRow, row: Decision)
    | Succeeded(entry: AuditRow, response: Response)
    | Failed(error: Error)
  {
    /** It waits for the database, which may fail; if it is `Written`, the acknowledgement of its commit is lost. */
    predicate Querying() { Arrived? || Checked? || Written? || Logged? || Replying? }

    /** It has committed and was not refused since. */
    predicate HasEntry() { Written? || Logged? || Replying? || Succeeded? }
  }

  datatype Flight = Flight(call: Call, phase: Phase)

  /** A `Get`: the row in one query, its revisions in a second one. */
  datatype Reader =
    | Waiting(id: nat)
    | RowRead(id: nat, row: Decision)
    | Answered(id: nat, row: Decision, revisions: seq<Revision>)
    | Missing(id: nat)

  /** One committed transaction: the copy it wrote from and the row it found. */
  datatype Commit = Commit(k: nat, call: Call, copy: Decision, id: nat, found: Option<Decision>)

  /** The tables and the audit log, with every request so far and the commits in order. */
  datatype Machine = Machine(
    tables: Tables, audits: seq<AuditRow>,
    flights: map<nat, Flight>, readers: map<nat, Reader>, commits: seq<Commit>)

  datatype Event =
    | Arrive(k: nat, call: Call)
    | Check(k: nat)
    | Transact(k: nat, newId: nat)
    | Break(k: nat)
    | Log(k: nat, stored: bool, failed: bool)
    | Reply(k: nat)
    | Open(k: nat, id: nat)
    | ReadRow(k: nat)
    | ReadRevisions(k: nat)

  ghost predicate Enabled(m: Machine, e: Event) {
    match e
    case Arrive(k, _) => k !in m.flights
    case Check(k) => k in m.flights && m.flights[k].phase.Arrived?
    case Transact(k, newId) =>
      k in m.flights && m.flights[k].phase.Checked? && (m.flights[k].call.Create? ==> newId !in m.tables.rows)
    case Break(k) => k in m.flights && m.flights[k].phase.Querying()
    case Log(k, stored, failed) => k in m.flights && m.flights[k].phase.Written? && (stored || failed)
    case Reply(k) => k in m.flights && (m.flights[k].phase.Logged? || m.flights[k].phase.Replying?)
    case Open(k, _) => k !in m.readers
    case ReadRow(k) => k in m.readers && m.readers[k].Waiting?
    case ReadRevisions(k) => k in m.readers && m.readers[k].RowRead?
  }

  function Move(m: Machine, k: nat, phase: Phase): Machine
    requires k in m.flights
  {
    m.(flights := m.flights[k := m.flights[k].(phase := phase)])
  }

  /** `Get` and the guards. */
  function AfterCheck(m: Machine, k: nat): Machine
    requires k in m.flights
  {
    match Prepare(m.tables, m.flights[k].call)
    case Success(copy) => Move(m, k, Checked(copy))
    case Failure(error) => Move(m, k, Failed(error))
  }

  function CommitOf(m: Machine, k: nat, newId: nat): Commit
    requires k in m.flights && m.flights[k].phase.Checked?
  {
    var call := m.flights[k].call;
    var id := RowId(call, newId);
    Commit(k, call, m.flights[k].phase.copy, id, if id in m.tables.rows then Some(m.tables.rows[id]) else None)
  }

  /** The row and its revision are written in one transaction, or neither is. */
  function AfterTransact(m: Machine, k: nat, newId: nat): Machine
    requires k in m.flights && m.flights[k].phase.Checked?
  {
    var c := CommitOf(m, k, newId);
    match Write(m.tables, c.call, c.copy, newId)
    case Failure(error) => Move(m, k, Failed(error))
    case Success(tables) =>
      Move(m, k, Written(AuditOf(c.call, c.copy, c.id))).(tables := tables, commits := m.commits + [c])
  }

  /**
   A creation or an edit ignores a failed audit append; a transition or a deletion reports it. An append that
   fails for the service may still have been stored.
   */
  function AfterLog(m: Machine, k: nat, stored: bool, failed: bool): Machine
    requires k in m.flights && m.flights[k].phase.Written?
  {
    var Flight(call, Written(entry)) := m.flights[k];
    var m' := if stored then m.(audits := m.audits + [entry]) else m;
    if failed && (call.Transition? || call.Delete?) then Move(m', k, Failed(AuditFailure))
    else if call.Delete? then Move(m', k, Succeeded(entry, NoContent))
    else Move(m', k, Logged(entry))
  }

  /** The `Get` whose outcome is the answer: the row, unless it has been deleted meanwhile, then its revisions. */
  function AfterReply(m: Machine, k: nat): Machine
    requires k in m.flights && (m.flights[k].phase.Logged? || m.flights[k].phase.Replying?)
  {
    var phase := m.flights[k].phase;
    var id := phase.entry.entityId;
    if phase.Replying? then Move(m, k, Succeeded(phase.entry, Item(phase.row, History(m.tables.revisions, id))))
    else if Live(m.tables, id) then Move(m, k, Replying(phase.entry, m.tables.rows[id]))
    else Move(m, k, Failed(NotFound))
  }

  ghost function Fire(m: Machine, e: Event): Machine
    requires Enabled(m, e)
  {
    match e
    case Arrive(k, call) => m.(flights := m.flights[k := Flight(call, Arrived)])
    case Check(k) => AfterCheck(m, k)
    case Transact(k, newId) => AfterTransact(m, k, newId)
    case Break(k) => Move(m, k, Failed(StorageFailure))
    case Log(k, stored, failed) => AfterLog(m, k, stored, failed)
    case Reply(k) => AfterReply(m, k)
    case Open(k, id) => m.(readers := m.readers[k := Waiting(id)])
    case ReadRow(k) =>
      var id := m.readers[k].id;
      m.(readers := m.readers[k := if Live(m.tables, id) then RowRead(id, m.tables.rows[id]) else Missing(id)])
    case ReadRevisions(k) =>
      var RowRead(id, row) := m.readers[k];
      m.(readers := m.readers[k := Answered(id, row, History(m.tables.revisions, id))])
  }

  ghost predicate Step(m: Machine, e: Event, m': Machine) {
    Enabled(m, e) && m' == Fire(m, e)
  }

  /** A service comes up over sound tables: empty, freshly seeded, or left by an earlier run. */
  ghost predicate Start(m: Machine) {
    Sound(m.tables) && m.audits == [] && m.flights == map[] && m.readers == map[] && m.commits == []
  }

  ghost predicate Run(ms: seq<Machine>, es: seq<Event>) {
    && |ms| == |es| + 1
    && Start(ms[0])
    && forall i :: 0 <= i < |es| ==> Step(ms[i], es[i], ms[i + 1])
  }

  // ---------- the invariant of every run ----------

  /** The response so far is one the decision has really been in, and its revisions lead up to it. */
  ghost predicate ReaderOk(t: Tables, reader: Reader) {
    match reader
    case Waiting(_) => true
    case Missing(_) => true
    case RowRead(id, row) => id in t.rows && !row.deleted && Led(History(t.revisions, id), row)
    case Answered(id, row, revisions) =>
      id in t.rows && !row.deleted && revisions <= History(t.revisions, id) && Led(revisions, row)
  }

  /** The row's own version is among the revisions, and that revision records it. */
  ghost predicate Led(h: seq<Revision>, row: Decision) {
    1 <= row.version <= |h| && Records(h[row.version - 1], row)
  }

  ghost predicate FlightOk(t: Tables, f: Flight) {
    match f.phase
    case Checked(copy) => CopyOk(t, f.call, copy)
    case Written(entry) => entry.entityId in t.rows
    case Logged(entry) => entry.entityId in t.rows
    case Replying(entry, row) => ReaderOk(t, RowRead(entry.entityId, row))
    case Succeeded(entry, Item(row, revisions)) => ReaderOk(t, Answered(entry.entityId, row, revisions))
    case _ => true
  }

  ghost predicate Inv(m: Machine) {
    && Sound(m.tables)
    && (forall k :: k in m.flights ==> FlightOk(m.tables, m.flights[k]))
    && (forall k :: k in m.readers ==> ReaderOk(m.tables, m.readers[k]))
  }

  lemma ReaderStaysOk(t: Tables, u: Tables, reader: Reader)
    requires ReaderOk(t, reader) && Extends(t, u)
    ensures ReaderOk(u, reader)
  {
    if reader.RowRead? || reader.Answered? {
      assert History(t.revisions, reader.id) <= History(u.revisions, reader.id);
    }
  }

  lemma FlightStaysOk(t: Tables, u: Tables, f: Flight)
    requires FlightOk(t, f) && Extends(t, u)
    ensures FlightOk(u, f)
  {
    hide ReaderOk, CopyOk;
    match f.phase
    case Checked(copy) => CopyStaysOk(t, u, f.call, copy);
    case Replying(entry, row) => ReaderStaysOk(t, u, RowRead(entry.entityId, row));
    case Succeeded(entry, Item(row, revisions)) => ReaderStaysOk(t, u, Answered(entry.entityId, row, revisions));
    case _ =>
  }

  lemma WrittenRowIsThere(t: Tables, call: Call, copy: Decision, newId: nat)
    requires Write(t, call, copy, newId).Success?
    ensures RowId(call, newId) in Write(t, call, copy, newId).value.rows
  {
  }

  lemma TransactKeepsInv(m: Machine, k: nat, newId: nat)
    requires Inv(m) && Enabled(m, Transact(k, newId))
    ensures Inv(AfterTransact(m, k, newId))
    ensures Extends(m.tables, AfterTransact(m, k, newId).tables)
  {
    var c, m' := CommitOf(m, k, newId), AfterTransact(m, k, newId);
    assert FlightOk(m.tables, m.flights[k]);
    hide Sound, Extends, CopyOk, Write, ReaderOk, FlightOk;
    if Write(m.tables, c.call, c.copy, newId).Success? {
      WriteKeepsSound(m.tables, c.call, c.copy, newId);
      WrittenRowIsThere(m.tables, c.call, c.copy, newId);
    } else {
      ExtendsReflexive(m.tables);
    }
    forall j | j in m'.flights
      ensures FlightOk(m'.tables, m'.flights[j])
    {
      if j != k {
        FlightStaysOk(m.tables, m'.tables, m.flights[j]);
      } else {
        TransactedIsOk(m', k);
      }
    }
    forall j | j in m'.readers
      ensures ReaderOk(m'.tables, m'.readers[j])
    {
      ReaderStaysOk(m.tables, m'.tables, m.readers[j]);
    }
  }

  lemma TransactedIsOk(m: Machine, k: nat)
    requires k in m.flights
    requires m.flights[k].phase.Failed?
             || (m.flights[k].phase.Written? && m.flights[k].phase.entry.entityId in m.tables.rows)
    ensures FlightOk(m.tables, m.flights[k])
  {
  }

  lemma CheckKeepsInv(m: Machine, k: nat)
    requires Inv(m) && k in m.flights
    ensures Inv(AfterCheck(m, k)) && AfterCheck(m, k).tables == m.tables
  {
    hide Sound, CopyOk, Prepare, ReaderOk;
    if Prepare(m.tables, m.flights[k].call).Success? {
      PreparedCopyIsOk(m.tables, m.flights[k].call);
    }
  }

  lemma ReadingKeepsInv(m: Machine, e: Event)
    requires Inv(m) && Enabled(m, e) && (e.ReadRow? || e.ReadRevisions?)
    ensures Inv(Fire(m, e)) && Fire(m, e).tables == m.tables
  {
    hide FlightOk, DistinctCodes;
    var id := m.readers[e.k].id;
    assert ReaderOk(m.tables, m.readers[e.k]);
    assert id in m.tables.rows ==> SoundRow(m.tables.rows[id], History(m.tables.revisions, id));
  }

  lemma ReplyKeepsInv(m: Machine, k: nat)
    requires Inv(m) && Enabled(m, Reply(k))
    ensures Inv(AfterReply(m, k)) && AfterReply(m, k).tables == m.tables
  {
    hide DistinctCodes, CopyOk;
    var id := m.flights[k].phase.entry.entityId;
    assert FlightOk(m.tables, m.flights[k]);
    assert id in m.tables.rows ==> SoundRow(m.tables.rows[id], History(m.tables.revisions, id));
  }

  /** Every step of every request keeps the invariant and only extends the tables. */
  lemma StepKeepsInv(m: Machine, e: Event, m': Machine)
    requires Inv(m) && Step(m, e, m')
    ensures Inv(m') && Extends(m.tables, m'.tables)
  {
    hide SoundRow, DistinctCodes, Extends, CopyOk, AuditOf, AfterTransact, AfterCheck, AfterReply;
    ExtendsReflexive(m.tables);
    match e
    case Transact(k, newId) => TransactKeepsInv(m, k, newId);
    case Check(k) => CheckKeepsInv(m, k);
    case Reply(k) => ReplyKeepsInv(m, k);
    case ReadRow(_) => ReadingKeepsInv(m, e);
    case ReadRevisions(_) => ReadingKeepsInv(m, e);
    case _ => 
  }

  lemma {:induction false} RunKeepsInv(ms: seq<Machine>, es: seq<Event>, i: nat)
    requires Run(ms, es) && i < |ms|
    ensures Inv(ms[i])
  {
    hide Step, Sound;
    if i > 0 {
      RunKeepsInv(ms, es, i - 1);
      assert Step(ms[i - 1], es[i - 1], ms[i]);
      StepKeepsInv(ms[i - 1], es[i - 1], ms[i]);
    }
  }

  /** Whatever happens in between, later tables extend earlier ones. */
  lemma {:induction false} RunExtends(ms: seq<Machine>, es: seq<Event>, i: nat, j: nat)
    requires Run(ms, es) && i <= j < |ms|
    ensures Extends(ms[i].tables, ms[j].tables)
    decreases j
  {
    hide Step, Sound, Inv;
    if i < j {
      RunExtends(ms, es, i, j - 1);
      RunKeepsInv(ms, es, j - 1);
      assert Step(ms[j - 1], es[j - 1], ms[j]);
      StepKeepsInv(ms[j - 1], es[j - 1], ms[j]);
      ExtendsTransitive(ms[i].tables, ms[j - 1].tables, ms[j].tables);
    }
  }
}
