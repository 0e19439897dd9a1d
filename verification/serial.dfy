/** Overlapping requests against requests that run one at a time. */
module Serialisation {
  import opened Outcomes
  import opened StatusGraph
  import opened Decisions
  import opened RevisionChain
  import opened Interleaving
  import opened ObservedVersions

  /** The committed calls run one at a time, each alone, in commit order; none may be refused. */
  function Replay(start: Tables, commits: seq<Commit>): Option<Tables> {
    if commits == [] then Some(start)
    else
      var c := commits[|commits| - 1];
      match Replay(start, commits[..|commits| - 1])
      case None => None
      case Some(t) =>
        match Execute(t, c.call, c.id)
        case Failure(_) => None
        case Success(u) => Some(u)
  }

  /** A deletion that found its row decided although its own guard had seen a draft. */
  predicate IsRace(c: Commit) {
    c.call.Delete? && c.found.Some? && c.found.value.status != DRAFT
  }

  predicate RaceFree(commits: seq<Commit>) {
    forall c | c in commits :: !IsRace(c)
  }

  lemma ReplayOneMore(start: Tables, commits: seq<Commit>, c: Commit)
    ensures Replay(start, commits + [c]) ==
            match Replay(start, commits)
            case None => None
            case Some(t) => match Execute(t, c.call, c.id) case Failure(_) => None case Success(u) => Some(u)
  {
    assert (commits + [c])[..|commits|] == commits;
  }

  lemma RaceFreeOneMore(commits: seq<Commit>, c: Commit)
    ensures RaceFree(commits + [c]) <==> RaceFree(commits) && !IsRace(c)
  {
    assert c in commits + [c];
    assert forall d :: d in commits ==> d in commits + [c];
  }

  /** A write that commits does what the whole call would do alone, or is a deletion the call alone would refuse. */
  lemma CommitIsTheCallAlone(m: Machine, k: nat, newId: nat)
    requires Inv(m) && AllSeen(m) && Enabled(m, Transact(k, newId))
    requires Write(m.tables, m.flights[k].call, m.flights[k].phase.copy, newId).Success?
    ensures var c := CommitOf(m, k, newId);
            if IsRace(c) then Execute(m.tables, c.call, c.id).Failure?
            else Execute(m.tables, c.call, c.id) == Write(m.tables, c.call, c.copy, newId)
  {
    hide Sound, ReaderOk, Seen, AuditOf;
    var Flight(call, Checked(copy)) := m.flights[k];
    assert FlightOk(m.tables, m.flights[k]);
    if call.Edits() {
      CheckedCopyIsFresh(m, k);
    }
  }

  lemma StepIsReplayed(start: Tables, m: Machine, e: Event, m': Machine)
    requires Inv(m) && AllSeen(m) && Step(m, e, m')
    requires Replay(start, m.commits) == if RaceFree(m.commits) then Some(m.tables) else None
    ensures Replay(start, m'.commits) == if RaceFree(m'.commits) then Some(m'.tables) else None
  {
    hide Inv, AllSeen, Replay, RaceFree, IsRace, Execute, Write, Prepare, AuditOf;
    if e.Transact? && Write(m.tables, m.flights[e.k].call, m.flights[e.k].phase.copy, e.newId).Success? {
      var c := CommitOf(m, e.k, e.newId);
      CommitIsTheCallAlone(m, e.k, e.newId);
      ReplayOneMore(start, m.commits, c);
      RaceFreeOneMore(m.commits, c);
    }
  }

  /**
   Serialisability, with its exact condition: the rows and revisions of any overlapping run are those of
   the committed calls run one at a time in commit order, none refused, if and only if no committed
   deletion found its row already decided. Calls that were refused leave no trace.
   */
  lemma {:induction false} RunsAreSerialisable(ms: seq<Machine>, es: seq<Event>, i: nat)
    requires ObservedRun(ms, es) && i < |ms|
    ensures Replay(ms[0].tables, ms[i].commits)
            == if RaceFree(ms[i].commits) then Some(ms[i].tables) else None
  {
    hide Step, Sound, WellShaped, Observed, Inv, AllSeen, IsRace, Execute;
    if i > 0 {
      RunsAreSerialisable(ms, es, i - 1);
      RunKeepsSeen(ms, es, i - 1);
      StepIsReplayed(ms[0].tables, ms[i - 1], es[i - 1], ms[i]);
    }
  }

  // ---------- deletion ----------

  ghost predicate DeletedWhileDecided(t: Tables, id: nat) {
    id in t.rows && t.rows[id].deleted && t.rows[id].status != DRAFT
  }

  ghost predicate RacedOn(commits: seq<Commit>, id: nat) {
    exists c :: c in commits && c.id == id && IsRace(c)
  }

  lemma RacedOnOneMore(commits: seq<Commit>, c: Commit, id: nat)
    ensures RacedOn(commits + [c], id) <==> RacedOn(commits, id) || (c.id == id && IsRace(c))
  {
    assert c in commits + [c];
    assert forall d :: d in commits ==> d in commits + [c];
    if RacedOn(commits, id) {
      var d :| d in commits && d.id == id && IsRace(d);
      assert d in commits + [c];
    }
  }

  lemma TransactDeletesDecidedOnlyByRace(m: Machine, k: nat, newId: nat, id: nat)
    requires Inv(m) && Enabled(m, Transact(k, newId))
    requires Write(m.tables, m.flights[k].call, m.flights[k].phase.copy, newId).Success?
    ensures var c := CommitOf(m, k, newId);
            DeletedWhileDecided(AfterTransact(m, k, newId).tables, id)
            <==> DeletedWhileDecided(m.tables, id) || (c.id == id && IsRace(c))
  {
    hide AuditOf, Sound, ReaderOk;
    var c := CommitOf(m, k, newId);
    assert FlightOk(m.tables, m.flights[k]);
    if c.id != id {
      WriteMovesOneRow(m.tables, c.call, c.copy, newId, id);
    }
  }

  lemma StepDeletesDecidedOnlyByRace(m: Machine, e: Event, m': Machine, id: nat)
    requires Inv(m) && Step(m, e, m')
    requires DeletedWhileDecided(m.tables, id) <==> RacedOn(m.commits, id)
    ensures DeletedWhileDecided(m'.tables, id) <==> RacedOn(m'.commits, id)
  {
    hide Inv, RacedOn, DeletedWhileDecided, Write, Prepare, AuditOf;
    if e.Transact? && Write(m.tables, m.flights[e.k].call, m.flights[e.k].phase.copy, e.newId).Success? {
      TransactDeletesDecidedOnlyByRace(m, e.k, e.newId, id);
      RacedOnOneMore(m.commits, CommitOf(m, e.k, e.newId), id);
    }
  }

  /** A decided row is found deleted exactly when some deletion raced with its decision. */
  lemma {:induction false} DecidedRowsAreDeletedOnlyByRace(ms: seq<Machine>, es: seq<Event>, i: nat, id: nat)
    requires Run(ms, es) && i < |ms|
    requires !DeletedWhileDecided(ms[0].tables, id)
    ensures DeletedWhileDecided(ms[i].tables, id) <==> RacedOn(ms[i].commits, id)
  {
    hide Step, Sound, Inv, IsRace, DeletedWhileDecided;
    if i > 0 {
      DecidedRowsAreDeletedOnlyByRace(ms, es, i - 1, id);
      RunKeepsInv(ms, es, i - 1);
      assert Step(ms[i - 1], es[i - 1], ms[i]);
      StepDeletesDecidedOnlyByRace(ms[i - 1], es[i - 1], ms[i], id);
    }
  }

  // ---------- who may write what ----------

  /** The revision table holds the revisions it started with and one for each committed call but the deletions. */
  function RevisionsOf(commits: seq<Commit>): seq<Revision> {
    if commits == [] then []
    else
      var c := commits[|commits| - 1];
      RevisionsOf(commits[..|commits| - 1]) + if c.call.Delete? then [] else [RevisionOf(c.call, c.copy, c.id)]
  }

  /** The caller was entitled to the write by the row it overwrote, and a decision carries the draft's evidence on. */
  ghost predicate Entitled(c: Commit) {
    match c.call
    case Create(_, _, actor, _) => c.found == None && c.copy.preparedBy == actor
    case Update(_, expected, _, actor, role, _) =>
      && c.found == Some(c.copy) && c.copy.version == expected && c.copy.status == DRAFT
      && (actor == c.copy.preparedBy || role == ADMIN)
    case Transition(_, expected, target, _, actor, role, _) =>
      && c.found == Some(c.copy) && c.copy.version == expected && c.copy.status == DRAFT
      && target in {"observe", "restrict", "urgent"}
      && actor != c.copy.preparedBy && role in {REVIEWER, ADMIN}
      && RevisionOf(c.call, c.copy, c.id).evidence == c.copy.business.evidence
    case Delete(_, _, _) => c.found.Some? && c.copy.status == DRAFT
  }

  lemma CommitIsEntitled(m: Machine, k: nat, newId: nat)
    requires Inv(m) && AllSeen(m) && Enabled(m, Transact(k, newId))
    requires Write(m.tables, m.flights[k].call, m.flights[k].phase.copy, newId).Success?
    ensures Entitled(CommitOf(m, k, newId))
  {
    hide Sound, ReaderOk, Seen, AuditOf;
    var Flight(call, Checked(copy)) := m.flights[k];
    assert FlightOk(m.tables, m.flights[k]);
    if call.Edits() {
      CheckedCopyIsFresh(m, k);
      DecisionEdges(copy.status, if call.Transition? then call.target else DRAFT);
    }
  }

  lemma StepIsAccountedFor(start: seq<Revision>, m: Machine, e: Event, m': Machine)
    requires Inv(m) && AllSeen(m) && Step(m, e, m')
    requires m.tables.revisions == start + RevisionsOf(m.commits)
    requires forall c :: c in m.commits ==> Entitled(c)
    ensures m'.tables.revisions == start + RevisionsOf(m'.commits)
    ensures forall c :: c in m'.commits ==> Entitled(c)
  {
    hide Inv, AllSeen, Entitled, Prepare, AuditOf, History, Write, RevisionOf;
    if e.Transact? && Write(m.tables, m.flights[e.k].call, m.flights[e.k].phase.copy, e.newId).Success? {
      var c := CommitOf(m, e.k, e.newId);
      CommitIsEntitled(m, e.k, e.newId);
      WriteAppendsItsRevision(m.tables, c.call, c.copy, e.newId);
      assert (m.commits + [c])[..|m.commits|] == m.commits;
    }
  }

  lemma WriteAppendsItsRevision(t: Tables, call: Call, copy: Decision, newId: nat)
    requires Write(t, call, copy, newId).Success?
    ensures Write(t, call, copy, newId).value.revisions
            == t.revisions + if call.Delete? then [] else [RevisionOf(call, copy, RowId(call, newId))]
  {
  }

  /** Every revision since the start was written by one committed call, whose caller was entitled to it. */
  lemma {:induction false} EveryRevisionIsAccountedFor(ms: seq<Machine>, es: seq<Event>, i: nat)
    requires ObservedRun(ms, es) && i < |ms|
    ensures ms[i].tables.revisions == ms[0].tables.revisions + RevisionsOf(ms[i].commits)
    ensures forall c :: c in ms[i].commits ==> Entitled(c)
  {
    hide Step, Sound, WellShaped, Observed, Inv, AllSeen, Entitled;
    if i > 0 {
      EveryRevisionIsAccountedFor(ms, es, i - 1);
      RunKeepsSeen(ms, es, i - 1);
      StepIsAccountedFor(ms[0].tables.revisions, ms[i - 1], es[i - 1], ms[i]);
    }
  }
}
