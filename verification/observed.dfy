/**
 Runs in which clients send only versions they can have seen. The service never compares the version
 it read with the version the client sent, so this is what its guards rest on.
 */
module ObservedVersions {
  import opened Outcomes
  import opened StatusGraph
  import opened Decisions
  import opened RevisionChain
  import opened Interleaving

  /** Some revision of the decision carries the version when the request arrives. */
  ghost predicate Observed(t: Tables, call: Call) {
    call.Edits() ==> exists r :: r in t.revisions && r.decisionId == call.id && r.version == call.expected
  }

  ghost predicate ObservedRun(ms: seq<Machine>, es: seq<Event>) {
    && Run(ms, es)
    && WellShaped(ms[0].tables)
    && forall i :: 0 <= i < |es| && es[i].Arrive? ==> Observed(ms[i].tables, es[i].call)
  }

  // ---------- fresh reads ----------

  /**
   The exact condition, in any run: a committed edit overwrites the very row its guards examined
   if and only if the version sent is not above the version read.
   */
  lemma WriteIsFreshExactlyWhen(ms: seq<Machine>, es: seq<Event>, i: nat, k: nat)
    requires Run(ms, es) && i < |ms| && k in ms[i].flights
    requires ms[i].flights[k].phase.Checked? && ms[i].flights[k].call.Edits()
    requires Write(ms[i].tables, ms[i].flights[k].call, ms[i].flights[k].phase.copy, 0).Success?
    ensures var Flight(call, Checked(copy)) := ms[i].flights[k];
            call.id in ms[i].tables.rows
            && (copy == ms[i].tables.rows[call.id] <==> call.expected <= copy.version)
  {
    hide Run, Sound;
    RunKeepsInv(ms, es, i);
    assert FlightOk(ms[i].tables, ms[i].flights[k]);
  }

  /** The version an edit carries has been reached, and once the row is read it is not above what was read. */
  ghost predicate Seen(t: Tables, f: Flight) {
    f.call.Edits() ==>
      && (f.phase.Arrived? ==> f.call.id in t.rows && f.call.expected <= t.rows[f.call.id].version)
      && (f.phase.Checked? ==> f.call.expected <= f.phase.copy.version)
  }

  ghost predicate AllSeen(m: Machine) {
    forall k :: k in m.flights ==> Seen(m.tables, m.flights[k])
  }

  /** Every edit that can still be written was checked against the very row it will overwrite. */
  lemma CheckedCopyIsFresh(m: Machine, k: nat)
    requires Inv(m) && AllSeen(m) && k in m.flights && m.flights[k].phase.Checked?
    requires m.flights[k].call.Edits()
    requires Live(m.tables, m.flights[k].call.id)
    requires m.tables.rows[m.flights[k].call.id].version == m.flights[k].call.expected
    ensures m.flights[k].phase.copy == m.tables.rows[m.flights[k].call.id]
  {
    hide Sound;
    assert FlightOk(m.tables, m.flights[k]) && Seen(m.tables, m.flights[k]);
  }

  lemma ObservedVersionIsReached(t: Tables, call: Call)
    requires Sound(t) && Observed(t, call) && call.Edits()
    ensures call.id in t.rows && call.expected <= t.rows[call.id].version
  {
    var r :| r in t.revisions && r.decisionId == call.id && r.version == call.expected;
    HistoryMembers(t.revisions, call.id, r);
    assert SoundRow(t.rows[call.id], History(t.revisions, call.id));
  }

  lemma SeenStays(t: Tables, u: Tables, f: Flight)
    requires Extends(t, u) && Seen(t, f)
    ensures Seen(u, f)
  {
    if f.call.Edits() && f.phase.Arrived? {
      assert RowExtends(t.rows[f.call.id], u.rows[f.call.id]);
    }
  }

  lemma CheckedVersionIsSeen(t: Tables, f: Flight)
    requires Seen(t, f) && f.phase.Arrived? && Prepare(t, f.call).Success?
    ensures Seen(t, Flight(f.call, Checked(Prepare(t, f.call).value)))
  {
  }

  lemma StepKeepsSeen(m: Machine, e: Event, m': Machine)
    requires Inv(m) && AllSeen(m) && Step(m, e, m')
    requires e.Arrive? ==> Observed(m.tables, e.call)
    ensures AllSeen(m')
  {
    StepKeepsInv(m, e, m');
    hide SoundRow, DistinctCodes, Extends, Write, Prepare, AuditOf, ReaderOk, FlightOk, Seen;
    forall k | k in m'.flights
      ensures Seen(m'.tables, m'.flights[k])
    {
      if k in m.flights && m'.flights[k] == m.flights[k] {
        SeenStays(m.tables, m'.tables, m.flights[k]);
      } else {
        StepSeesItsOwn(m, e, m', k);
      }
    }
  }

  lemma StepSeesItsOwn(m: Machine, e: Event, m': Machine, k: nat)
    requires Inv(m) && AllSeen(m) && Step(m, e, m')
    requires e.Arrive? ==> Observed(m.tables, e.call)
    requires k in m'.flights && (k !in m.flights || m'.flights[k] != m.flights[k])
    ensures Seen(m'.tables, m'.flights[k])
  {
    hide SoundRow, DistinctCodes, Write, Prepare, AuditOf, ReaderOk, FlightOk, Observed;
    match e
    case Arrive(_, call) =>
      if call.Edits() { ObservedVersionIsReached(m.tables, call); }
    case Check(_) =>
      assert Seen(m.tables, m.flights[k]);
      if Prepare(m.tables, m.flights[k].call).Success? { CheckedVersionIsSeen(m.tables, m.flights[k]); }
    case _ =>
  }

  lemma {:induction false} RunKeepsSeen(ms: seq<Machine>, es: seq<Event>, i: nat)
    requires ObservedRun(ms, es) && i < |ms|
    ensures Inv(ms[i]) && AllSeen(ms[i])
  {
    hide Step, Sound, WellShaped, Observed;
    RunKeepsInv(ms, es, i);
    if i > 0 {
      RunKeepsSeen(ms, es, i - 1);
      StepKeepsSeen(ms[i - 1], es[i - 1], ms[i]);
    }
  }

  // ---------- finality ----------

  /** Nothing but its deletion mark changes in a decided row, and no revision follows. */
  ghost predicate StaysDecided(t: Tables, u: Tables, id: nat)
    requires id in t.rows
  {
    && id in u.rows && SameContent(t.rows[id], u.rows[id])
    && History(t.revisions, id) == History(u.revisions, id)
  }

  /** An edit whose copy is fresh is never written over a decided row. */
  lemma DecidedRowRefusesEdits(m: Machine, k: nat)
    requires Inv(m) && AllSeen(m) && k in m.flights && m.flights[k].phase.Checked?
    requires m.flights[k].call.Edits() && m.flights[k].call.id in m.tables.rows
    requires m.tables.rows[m.flights[k].call.id].status != DRAFT
    ensures Write(m.tables, m.flights[k].call, m.flights[k].phase.copy, 0).Failure?
  {
    hide Sound, ReaderOk;
    var Flight(call, Checked(copy)) := m.flights[k];
    assert FlightOk(m.tables, m.flights[k]);
    if Write(m.tables, call, copy, 0).Success? {
      CheckedCopyIsFresh(m, k);
      DecisionEdges(copy.status, if call.Transition? then call.target else DRAFT);
      assert false;
    }
  }

  /** Writing an edit, or a creation, says nothing of any other row. */
  lemma WriteMovesOneRow(t: Tables, call: Call, copy: Decision, newId: nat, id: nat)
    requires Write(t, call, copy, newId).Success? && id != RowId(call, newId)
    ensures var u := Write(t, call, copy, newId).value;
            (id in u.rows <==> id in t.rows) && (id in t.rows ==> u.rows[id] == t.rows[id])
            && History(u.revisions, id) == History(t.revisions, id)
  {
    if !call.Delete? {
      HistoryOfAppend(t.revisions, RevisionOf(call, copy, newId), id);
    }
  }

  lemma StepLeavesDecided(m: Machine, e: Event, m': Machine, id: nat)
    requires Inv(m) && AllSeen(m) && Step(m, e, m')
    requires id in m.tables.rows && m.tables.rows[id].status != DRAFT
    ensures StaysDecided(m.tables, m'.tables, id)
  {
    hide Sound, Seen, FlightOk, ReaderOk, Prepare, AuditOf;
    if e.Transact? {
      var c := CommitOf(m, e.k, e.newId);
      if Write(m.tables, c.call, c.copy, e.newId).Success? {
        if c.id != id {
          WriteMovesOneRow(m.tables, c.call, c.copy, e.newId, id);
        } else if c.call.Edits() {
          DecidedRowRefusesEdits(m, e.k);
        }
      }
    }
  }

  /**
   Finality: once a decision is observe, restrict or urgent, no later step of any request changes its row
   or adds a revision to it, even when that request passed its guards while the decision was a draft.
   */
  lemma {:induction false} DecisionsAreFinal(ms: seq<Machine>, es: seq<Event>, i: nat, j: nat, id: nat)
    requires ObservedRun(ms, es) && i <= j < |ms|
    requires id in ms[i].tables.rows && ms[i].tables.rows[id].status != DRAFT
    ensures StaysDecided(ms[i].tables, ms[j].tables, id)
    decreases j
  {
    hide Step, Sound, WellShaped, Observed, Inv, AllSeen;
    if i < j {
      DecisionsAreFinal(ms, es, i, j - 1, id);
      RunKeepsSeen(ms, es, j - 1);
      StepLeavesDecided(ms[j - 1], es[j - 1], ms[j], id);
    }
  }

  // ---------- the shape of a history ----------

  /** Drafts, then at most one decision, which repeats the evidence of the last draft. */
  ghost predicate DecidedOnce(h: seq<Revision>) {
    && (forall k :: 0 <= k < |h| - 1 ==> h[k].status == DRAFT)
    && (2 <= |h| && h[|h| - 1].status != DRAFT ==> h[|h| - 1].evidence == h[|h| - 2].evidence)
  }

  ghost predicate WellShaped(t: Tables) {
    forall id {:trigger History(t.revisions, id)} :: id in t.rows ==> DecidedOnce(History(t.revisions, id))
  }

  lemma FreshEditKeepsShape(row: Decision, h: seq<Revision>, call: Call, r: Revision)
    requires SoundRow(row, h) && DecidedOnce(h)
    requires call.Edits() && Objection(row, call) == None && r == RevisionOf(call, row, 0)
    ensures DecidedOnce(h + [r])
  {
    DecisionEdges(row.status, if call.Transition? then call.target else DRAFT);
    assert row.status == DRAFT;
  }

  lemma FirstRevisionKeepsShape(r: Revision)
    ensures DecidedOnce([r])
  {
  }

  lemma TransactKeepsShape(m: Machine, k: nat, newId: nat)
    requires Inv(m) && AllSeen(m) && Enabled(m, Transact(k, newId)) && WellShaped(m.tables)
    requires Write(m.tables, m.flights[k].call, m.flights[k].phase.copy, newId).Success?
    ensures WellShaped(Write(m.tables, m.flights[k].call, m.flights[k].phase.copy, newId).value)
  {
    hide ReaderOk, Extends, Seen, DecidedOnce, DistinctCodes, AuditOf, Objection;
    var t := m.tables;
    var Flight(call, Checked(copy)) := m.flights[k];
    var u := Write(t, call, copy, newId).value;
    assert FlightOk(t, m.flights[k]);
    forall id | id in u.rows
      ensures DecidedOnce(History(u.revisions, id))
    {
      if id != RowId(call, newId) {
        WriteMovesOneRow(t, call, copy, newId, id);
      } else if call.Delete? {
        assert u.revisions == t.revisions;
      } else {
        var r := RevisionOf(call, copy, newId);
        assert u.revisions == t.revisions + [r];
        HistoryOfAppend(t.revisions, r, id);
        if call.Create? {
          NoStrayHistory(t, id);
          FirstRevisionKeepsShape(r);
          assert History(u.revisions, id) == [r];
        } else {
          CheckedCopyIsFresh(m, k);
          FreshEditKeepsShape(t.rows[id], History(t.revisions, id), call, r);
        }
      }
    }
  }

  lemma {:induction false} HistoriesKeepTheirShape(ms: seq<Machine>, es: seq<Event>, i: nat)
    requires ObservedRun(ms, es) && i < |ms|
    ensures WellShaped(ms[i].tables)
  {
    hide Step, Sound, WellShaped, Observed, Inv, AllSeen;
    if i > 0 {
      HistoriesKeepTheirShape(ms, es, i - 1);
      RunKeepsSeen(ms, es, i - 1);
      var m, e := ms[i - 1], es[i - 1];
      assert Step(m, e, ms[i]);
      StepKeepsShape(m, e, ms[i]);
    }
  }

  lemma StepKeepsShape(m: Machine, e: Event, m': Machine)
    requires Inv(m) && AllSeen(m) && WellShaped(m.tables) && Step(m, e, m')
    ensures WellShaped(m'.tables)
  {
    hide Sound, WellShaped, Inv, AllSeen, Write, Prepare, AuditOf;
    if e.Transact? && Write(m.tables, m.flights[e.k].call, m.flights[e.k].phase.copy, e.newId).Success? {
      TransactKeepsShape(m, e.k, e.newId);
    }
  }
}
