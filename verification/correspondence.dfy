/** The stepwise requests of the overlapping runs against the service methods. */
module Correspondence {
  import opened Outcomes
  import opened Decisions
  import opened Interleaving
  import opened SequentialCalls

  /** A request that takes all its steps in a row. */
  function Uninterrupted(m: Machine, k: nat, call: Call, newId: nat, stored: bool): (m': Machine)
    requires k !in m.flights
    ensures k in m'.flights
  {
    var arrived := m.(flights := m.flights[k := Flight(call, Arrived)]);
    var checked := AfterCheck(arrived, k);
    var written := if checked.flights[k].phase.Checked? then AfterTransact(checked, k, newId) else checked;
    var logged := if written.flights[k].phase.Written? then AfterLog(written, k, stored, !stored) else written;
    var replying := if logged.flights[k].phase.Logged? then AfterReply(logged, k) else logged;
    if replying.flights[k].phase.Replying? then AfterReply(replying, k) else replying
  }

  /**
   A request that nothing interrupts does, step by step, what the service method does as a whole: the same
   tables, the same audit log, and the same response or error.
   */
  lemma UninterruptedRequestIsTheMethod(m: Machine, k: nat, call: Call, newId: nat, stored: bool)
    requires k !in m.flights
    ensures var m', e := Uninterrupted(m, k, call, newId, stored), Effect(m.tables, m.audits, call, newId, stored);
            && m'.tables == e.tables && m'.audits == e.log
            && match m'.flights[k].phase
               case Failed(error) => e.response == Failure(error)
               case Succeeded(_, response) => e.response == Success(response)
               case _ => false
  {
    EntryNamesItsRow(call, newId);
    hide AuditOf, Objection, IndexFree, CodeFree, ValidFields, History, RevisionOf;
    var t := m.tables;
    if Prepare(t, call).Success? && Write(t, call, Prepare(t, call).value, newId).Success? && !call.Delete? {
      assert Live(Write(t, call, Prepare(t, call).value, newId).value, RowId(call, newId));
    }
  }

  /** Its commit is entered exactly if the method wrote, with the row the method read and the one it overwrote. */
  lemma UninterruptedRequestCommits(m: Machine, k: nat, call: Call, newId: nat, stored: bool)
    requires k !in m.flights
    ensures var id := if call.Create? then newId else call.id;
            Uninterrupted(m, k, call, newId, stored).commits ==
            if Execute(m.tables, call, newId).Success?
            then m.commits + [Commit(k, call, Prepare(m.tables, call).value, id,
                                     if id in m.tables.rows then Some(m.tables.rows[id]) else None)]
            else m.commits
  {
    hide AuditOf, Objection, IndexFree, CodeFree, ValidFields, History, RevisionOf, Live;
  }

  /** A reader that nothing interrupts answers with the live row and its history, or finds nothing. */
  lemma UninterruptedReaderIsTheGet(m: Machine, k: nat, id: nat)
    requires k !in m.readers
    ensures var waiting := Fire(m, Open(k, id));
            && Enabled(waiting, ReadRow(k))
            && var read := Fire(waiting, ReadRow(k));
               if id in m.tables.rows && !m.tables.rows[id].deleted then
                 && Enabled(read, ReadRevisions(k))
                 && Fire(read, ReadRevisions(k))
                    == m.(readers := m.readers[k := Answered(id, m.tables.rows[id], History(m.tables.revisions, id))])
               else read == m.(readers := m.readers[k := Missing(id)])
  {
  }

  lemma EntryNamesItsRow(call: Call, newId: nat)
    ensures forall copy :: AuditOf(call, copy, RowId(call, newId)).entityId == RowId(call, newId)
  {
  }
}
