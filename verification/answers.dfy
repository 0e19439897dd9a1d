/** What a caller is told of a committed write, however much happens before the answer is read. */
module Answers {
  import opened Outcomes
  import opened Decisions
  import opened RevisionChain
  import opened Interleaving
  import opened AuditTrail

  ghost predicate Holds(h: seq<Revision>, r: Revision) {
    1 <= r.version <= |h| && h[r.version - 1] == r
  }

  /** The commit's revision is in its place for good, or its row is gone for good. */
  ghost predicate Kept(t: Tables, c: Commit) {
    && c.id in t.rows
    && if c.call.Delete? then t.rows[c.id].deleted
       else Holds(History(t.revisions, c.id), RevisionOf(c.call, c.copy, c.id))
  }

  /** What the request of a commit has come to fits the commit. */
  ghost predicate Fits(t: Tables, p: Phase, c: Commit) {
    match p
    case Logged(_) => !c.call.Delete?
    case Replying(_, row) => !c.call.Delete? && RevisionOf(c.call, c.copy, c.id).version <= row.version
    case Succeeded(_, Item(row, revisions)) =>
      && !c.call.Delete? && RevisionOf(c.call, c.copy, c.id).version <= row.version
      && Holds(revisions, RevisionOf(c.call, c.copy, c.id))
    case Succeeded(_, NoContent) => c.call.Delete?
    case Failed(error) => error == NotFound ==> c.id in t.rows && t.rows[c.id].deleted
    case _ => true
  }

  ghost predicate AllFit(m: Machine) {
    forall c :: c in m.commits ==> c.k in m.flights && Kept(m.tables, c) && Fits(m.tables, m.flights[c.k].phase, c)
  }

  lemma CommitIsKept(t: Tables, call: Call, copy: Decision, newId: nat)
    requires Sound(t) && CopyOk(t, call, copy) && (call.Create? ==> newId !in t.rows)
    requires Write(t, call, copy, newId).Success?
    ensures forall k, found ::
              Kept(Write(t, call, copy, newId).value, Commit(k, call, copy, RowId(call, newId), found))
  {
    hide DistinctCodes, Records, Separated;
    var id := RowId(call, newId);
    if !call.Delete? {
      HistoryOfAppend(t.revisions, RevisionOf(call, copy, newId), id);
    }
    if call.Create? {
      NoStrayHistory(t, newId);
    }
  }

  lemma KeptStays(t: Tables, u: Tables, p: Phase, c: Commit)
    requires Extends(t, u) && Kept(t, c) && Fits(t, p, c)
    ensures Kept(u, c) && Fits(u, p, c)
  {
    assert RowExtends(t.rows[c.id], u.rows[c.id]);
    assert History(t.revisions, c.id) <= History(u.revisions, c.id);
  }

  lemma TransactFits(m: Machine, k: nat, newId: nat)
    requires Inv(m) && OneCommitEach(m) && AllFit(m) && Enabled(m, Transact(k, newId))
    ensures AllFit(AfterTransact(m, k, newId))
  {
    hide Inv, OneCommitEach, Extends, Kept, AuditOf, Write, Fits;
    var m' := AfterTransact(m, k, newId);
    TransactKeepsInv(m, k, newId);
    NotYetCommitted(m, k);
    CommittedIsKept(m, k, newId);
    forall c | c in m.commits
      ensures c.k in m'.flights && Kept(m'.tables, c) && Fits(m'.tables, m'.flights[c.k].phase, c)
    {
      KeptStays(m.tables, m'.tables, m.flights[c.k].phase, c);
    }
  }

  lemma CommittedIsKept(m: Machine, k: nat, newId: nat)
    requires Inv(m) && Enabled(m, Transact(k, newId))
    ensures var c, m' := CommitOf(m, k, newId), AfterTransact(m, k, newId);
            m'.commits == m.commits || (Kept(m'.tables, c) && Fits(m'.tables, m'.flights[k].phase, c))
  {
    assert FlightOk(m.tables, m.flights[k]);
    var c := CommitOf(m, k, newId);
    hide Inv, Sound, ReaderOk, FlightOk, Kept, CopyOk, AuditOf, Write;
    if Write(m.tables, c.call, c.copy, newId).Success? {
      CommitIsKept(m.tables, c.call, c.copy, newId);
      assert Kept(Write(m.tables, c.call, c.copy, newId).value, c);
    }
  }

  lemma ReplyFits(m: Machine, k: nat, c: Commit)
    requires Inv(m) && Enabled(m, Reply(k)) && k == c.k
    requires m.flights[k].phase.entry.entityId == c.id
    requires Kept(m.tables, c) && Fits(m.tables, m.flights[k].phase, c)
    ensures k in AfterReply(m, k).flights && Fits(m.tables, AfterReply(m, k).flights[k].phase, c)
  {
    hide DistinctCodes, Records, Separated, FlightOk, RevisionOf, ReaderOk;
    assert SoundRow(m.tables.rows[c.id], History(m.tables.revisions, c.id));
  }

  lemma EntryNamesTheRow(m: Machine, c: Commit)
    requires OneCommitEach(m) && c in m.commits && c.k in m.flights && m.flights[c.k].phase.HasEntry()
    ensures m.flights[c.k].phase.entry.entityId == c.id
  {
    var d :| d in m.commits && d.k == c.k && m.flights[c.k].phase.entry == AuditOf(d.call, d.copy, d.id);
    assert d == c;
  }

  lemma StepFits(m: Machine, e: Event, m': Machine)
    requires Inv(m) && OneCommitEach(m) && AllFit(m) && Step(m, e, m')
    ensures AllFit(m')
  {
    if e.Transact? {
      hide Inv, OneCommitEach, AllFit, AfterTransact;
      TransactFits(m, e.k, e.newId);
    } else {
      hide Inv, OneCommitEach, Kept, Fits, AfterCheck, AfterLog, AfterReply;
      StepLeavesCommits(m, e, m');
      forall c | c in m'.commits
        ensures c.k in m'.flights && Kept(m'.tables, c) && Fits(m'.tables, m'.flights[c.k].phase, c)
      {
        StepFitsOne(m, e, m', c);
      }
    }
  }

  lemma StepLeavesCommits(m: Machine, e: Event, m': Machine)
    requires Step(m, e, m') && !e.Transact?
    ensures m'.commits == m.commits && m'.tables == m.tables
  {
    hide Prepare, AuditOf, History;
  }

  lemma CommitStands(m: Machine, c: Commit)
    requires OneCommitEach(m) && AllFit(m) && c in m.commits
    ensures c.k in m.flights && !Unfinished(m.flights[c.k].phase) && m.flights[c.k].call == c.call
    ensures Kept(m.tables, c) && Fits(m.tables, m.flights[c.k].phase, c)
  {
    hide AuditOf, Kept, Fits;
  }

  lemma StepFitsOne(m: Machine, e: Event, m': Machine, c: Commit)
    requires Inv(m) && OneCommitEach(m) && AllFit(m) && Step(m, e, m') && !e.Transact? && c in m.commits
    ensures c.k in m'.flights && Fits(m'.tables, m'.flights[c.k].phase, c)
  {
    hide Inv, Kept, AllFit, Fits, AfterLog, AfterReply, AfterCheck, AfterTransact, OneCommitEach, History;
    CommitStands(m, c);
    StepLeavesCommits(m, e, m');
    if e.Reply? && e.k == c.k {
      EntryNamesTheRow(m, c);
      ReplyFits(m, e.k, c);
    } else if e.Log? && e.k == c.k {
      LogFits(m, e.k, e.stored, e.failed, c);
    } else if e.Break? && e.k == c.k {
      BreakFits(m, e.k, c);
    } else {
      OtherFlightsStay(m, e, m', c.k);
    }
  }

  lemma LogFits(m: Machine, k: nat, stored: bool, failed: bool, c: Commit)
    requires Enabled(m, Log(k, stored, failed)) && m.flights[k].call == c.call
    ensures var m' := AfterLog(m, k, stored, failed);
            k in m'.flights && Fits(m.tables, m'.flights[k].phase, c)
  {
  }

  lemma BreakFits(m: Machine, k: nat, c: Commit)
    requires Enabled(m, Break(k))
    ensures k in Fire(m, Break(k)).flights && Fits(m.tables, Fire(m, Break(k)).flights[k].phase, c)
  {
  }

  lemma OtherFlightsStay(m: Machine, e: Event, m': Machine, k: nat)
    requires Step(m, e, m') && k in m.flights && !Unfinished(m.flights[k].phase)
    requires e.Reply? || e.Log? || e.Break? ==> e.k != k
    ensures k in m'.flights && m'.flights[k] == m.flights[k]
  {
    hide Prepare, AuditOf, History, Write;
  }

  lemma {:induction false} RunFits(ms: seq<Machine>, es: seq<Event>, i: nat)
    requires Run(ms, es) && i < |ms|
    ensures OneCommitEach(ms[i]) && AllFit(ms[i])
  {
    hide Step, Sound, Inv, OneCommitEach, Settled;
    RunKeepsSettled(ms, es, i);
    if i > 0 {
      RunFits(ms, es, i - 1);
      RunKeepsInv(ms, es, i - 1);
      assert Step(ms[i - 1], es[i - 1], ms[i]);
      StepFits(ms[i - 1], es[i - 1], ms[i]);
    }
  }

  /**
   The answer to a committed write, in any run: a row no older than what the call wrote, with the call's own
   revision at its version in the history; no content for a deletion; and not-found only if the row has been
   deleted since.
   */
  lemma AnswersShowTheWrite(ms: seq<Machine>, es: seq<Event>, i: nat, c: Commit)
    requires Run(ms, es) && i < |ms| && c in ms[i].commits
    ensures c.k in ms[i].flights && c.id in ms[i].tables.rows
    ensures match ms[i].flights[c.k].phase
            case Succeeded(_, Item(row, revisions)) =>
              !c.call.Delete?
              && var r := RevisionOf(c.call, c.copy, c.id);
                 1 <= r.version <= row.version && r.version <= |revisions| && revisions[r.version - 1] == r
            case Succeeded(_, NoContent) => c.call.Delete? && ms[i].tables.rows[c.id].deleted
            case Failed(error) => error == NotFound ==> ms[i].tables.rows[c.id].deleted
            case _ => true
  {
    hide Run, OneCommitEach, RevisionOf, History;
    RunFits(ms, es, i);
    assert Kept(ms[i].tables, c) && Fits(ms[i].tables, ms[i].flights[c.k].phase, c);
  }
}
