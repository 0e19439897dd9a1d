/** What holds in every run, whatever versions the clients send and however stale the copies are. */
module Safety {
  import opened Decisions
  import opened RevisionChain
  import opened Interleaving

  /** Each decision's revisions carry exactly the versions 1 to the row's, and the last records the row. */
  lemma RevisionsAreAChain(ms: seq<Machine>, es: seq<Event>, i: nat, id: nat)
    requires Run(ms, es) && i < |ms| && id in ms[i].tables.rows
    ensures var row, h := ms[i].tables.rows[id], History(ms[i].tables.revisions, id);
            0 < |h| == row.version && Contiguous(h) && Records(h[|h| - 1], row)
  {
    hide Run, Records, Extends;
    RunKeepsInv(ms, es, i);
    assert SoundRow(ms[i].tables.rows[id], History(ms[i].tables.revisions, id));
  }

  /** No two places of the revision table hold the same decision and version: a later one has a higher version. */
  lemma RevisionIndexIsUnique(ms: seq<Machine>, es: seq<Event>, i: nat, p: nat, q: nat)
    requires Run(ms, es) && i < |ms| && p < q < |ms[i].tables.revisions|
    requires ms[i].tables.revisions[p].decisionId == ms[i].tables.revisions[q].decisionId
    ensures ms[i].tables.revisions[p].version < ms[i].tables.revisions[q].version
  {
    hide Run, Records, Extends, History;
    var t := ms[i].tables;
    var id := t.revisions[p].decisionId;
    RunKeepsInv(ms, es, i);
    var a, b := PlacesInHistory(t.revisions, p, q);
    assert t.revisions[p] in t.revisions;
    assert SoundRow(t.rows[id], History(t.revisions, id));
  }

  /** A history keeps its revisions in the order of the table. */
  lemma {:induction false} PlacesInHistory(revisions: seq<Revision>, p: nat, q: nat) returns (a: nat, b: nat)
    requires p < q < |revisions| && revisions[p].decisionId == revisions[q].decisionId
    ensures var h := History(revisions, revisions[p].decisionId);
            a < b < |h| && h[a] == revisions[p] && h[b] == revisions[q]
  {
    var last, id := |revisions| - 1, revisions[p].decisionId;
    var h := History(revisions[..last], id);
    if q < last {
      a, b := PlacesInHistory(revisions[..last], p, q);
    } else {
      HistoryMembers(revisions[..last], id, revisions[p]);
      assert revisions[..last][p] == revisions[p];
      a :| 0 <= a < |h| && h[a] == revisions[p];
      b := |h|;
    }
  }

  /** The actor of a deciding revision is never the one who prepared the decision. */
  lemma NobodyDecidesTheirOwn(ms: seq<Machine>, es: seq<Event>, i: nat, r: Revision)
    requires Run(ms, es) && i < |ms| && r in ms[i].tables.revisions
    ensures r.decisionId in ms[i].tables.rows
    ensures r.status != DRAFT ==> r.actor != ms[i].tables.rows[r.decisionId].preparedBy
  {
    hide Run, Records, Extends;
    var t := ms[i].tables;
    RunKeepsInv(ms, es, i);
    HistoryMembers(t.revisions, r.decisionId, r);
    assert SoundRow(t.rows[r.decisionId], History(t.revisions, r.decisionId));
  }

  /** The row as it stood at any earlier point is recorded, for good, by the revision of its version. */
  lemma EveryPastRowIsOnRecord(ms: seq<Machine>, es: seq<Event>, i: nat, j: nat, id: nat)
    requires Run(ms, es) && i <= j < |ms| && id in ms[i].tables.rows
    ensures Led(History(ms[j].tables.revisions, id), ms[i].tables.rows[id])
  {
    hide Run, Records;
    RunKeepsInv(ms, es, i);
    RunExtends(ms, es, i, j);
    assert SoundRow(ms[i].tables.rows[id], History(ms[i].tables.revisions, id));
  }

  // ---------- replay ----------

  /** The row a whole snapshot stands for. */
  function Decode(s: Snapshot): Decision
    requires s.Full?
  {
    Decision(s.code, s.business, s.status, s.version, s.preparedBy, false)
  }

  ghost predicate AllFull(revisions: seq<Revision>) {
    forall r :: r in revisions ==> r.snapshot.Full?
  }

  lemma {:induction false} SnapshotsStayFull(ms: seq<Machine>, es: seq<Event>, i: nat)
    requires Run(ms, es) && i < |ms| && AllFull(ms[0].tables.revisions)
    ensures AllFull(ms[i].tables.revisions)
  {
    if i > 0 {
      SnapshotsStayFull(ms, es, i - 1);
      assert Step(ms[i - 1], es[i - 1], ms[i]);
      StepWritesFullSnapshots(ms[i - 1], es[i - 1], ms[i]);
    }
  }

  lemma StepWritesFullSnapshots(m: Machine, e: Event, m': Machine)
    requires Step(m, e, m') && AllFull(m.tables.revisions)
    ensures AllFull(m'.tables.revisions)
  {
    hide Prepare, Objection, Live, IndexFree, CodeFree, History, AuditOf;
  }

  /** From empty tables on, decoding the snapshot of a version gives back the row of that version. */
  lemma SnapshotsReplay(ms: seq<Machine>, es: seq<Event>, i: nat, j: nat, id: nat)
    requires Run(ms, es) && AllFull(ms[0].tables.revisions)
    requires i <= j < |ms| && id in ms[i].tables.rows
    ensures var row, h := ms[i].tables.rows[id], History(ms[j].tables.revisions, id);
            1 <= row.version <= |h| && h[row.version - 1].snapshot.Full?
            && Decode(h[row.version - 1].snapshot) == row.(deleted := false)
  {
    hide Run;
    var row, h := ms[i].tables.rows[id], History(ms[j].tables.revisions, id);
    EveryPastRowIsOnRecord(ms, es, i, j, id);
    SnapshotsStayFull(ms, es, j);
    HistoryMembers(ms[j].tables.revisions, id, h[row.version - 1]);
  }

  // ---------- reads ----------

  /**
   A response pairs a row read first with revisions read later; whatever was committed in between,
   the revisions are gapless, reach at least the row's version, and the one of that version records the row.
   */
  lemma SplitReadsAreCoherent(ms: seq<Machine>, es: seq<Event>, i: nat, k: nat)
    requires Run(ms, es) && i < |ms| && k in ms[i].readers && ms[i].readers[k].Answered?
    ensures var Answered(_, row, revisions) := ms[i].readers[k];
            && !row.deleted && Contiguous(revisions)
            && 1 <= row.version <= |revisions| && Records(revisions[row.version - 1], row)
  {
    hide Run, SoundRow, DistinctCodes, FlightOk, Records, History;
    RunKeepsInv(ms, es, i);
    var t, reader := ms[i].tables, ms[i].readers[k];
    assert ReaderOk(t, reader);
    PrefixIsContiguous(t.rows[reader.id], History(t.revisions, reader.id), reader.revisions);
  }

  lemma PrefixIsContiguous(row: Decision, h: seq<Revision>, prefix: seq<Revision>)
    requires SoundRow(row, h) && prefix <= h
    ensures Contiguous(prefix)
  {
    hide Records;
  }

  // ---------- identity and deletion ----------

  /** A row keeps its code and preparer; once deleted it keeps everything, and its revisions with it. */
  lemma RowsKeepTheirIdentity(ms: seq<Machine>, es: seq<Event>, i: nat, j: nat, id: nat)
    requires Run(ms, es) && i <= j < |ms| && id in ms[i].tables.rows
    ensures id in ms[j].tables.rows
    ensures var before, after := ms[i].tables.rows[id], ms[j].tables.rows[id];
            && before.code == after.code && before.preparedBy == after.preparedBy
            && (before.deleted ==> before == after
                                   && History(ms[i].tables.revisions, id) == History(ms[j].tables.revisions, id))
    ensures ms[i].tables.revisions <= ms[j].tables.revisions
  {
    hide Run;
    RunExtends(ms, es, i, j);
  }

  /** No two rows, live or deleted, at any time of the run, share a code. */
  lemma CodesAreNeverReused(ms: seq<Machine>, es: seq<Event>, i: nat, j: nat, a: nat, b: nat)
    requires Run(ms, es) && i <= j < |ms| && a in ms[i].tables.rows && b in ms[j].tables.rows
    requires ms[i].tables.rows[a].code == ms[j].tables.rows[b].code
    ensures a == b
  {
    hide Run, SoundRow;
    RunExtends(ms, es, i, j);
    RunKeepsInv(ms, es, j);
  }
}
