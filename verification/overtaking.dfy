/** Deletions that overtake a decision, told from the schedule alone. */
module Overtaking {
  import opened Outcomes
  import opened StatusGraph
  import opened Decisions
  import opened RevisionChain
  import opened Interleaving
  import opened ObservedVersions
  import opened Serialisation
  import opened SequentialCalls

  /** The write transaction of a request for the row commits in the step after point i. */
  ghost predicate CommitsAt(ms: seq<Machine>, es: seq<Event>, i: nat, id: nat)
    requires Run(ms, es) && i < |es|
  {
    && es[i].Transact? && |ms[i].commits| < |ms[i + 1].commits|
    && es[i].k in ms[i].flights && !ms[i].flights[es[i].k].call.Create? && ms[i].flights[es[i].k].call.id == id
  }

  /** A transition of the row commits between the check and the committed write of a deletion of it. */
  ghost predicate Overtakes(ms: seq<Machine>, es: seq<Event>, a: nat, b: nat, c: nat, id: nat)
    requires Run(ms, es)
  {
    && a < b < c < |es|
    && es[a].Check? && es[c].Transact? && es[a].k == es[c].k
    && CommitsAt(ms, es, b, id) && ms[b].flights[es[b].k].call.Transition?
    && CommitsAt(ms, es, c, id) && ms[c].flights[es[c].k].call.Delete?
  }

  ghost predicate Overtaken(ms: seq<Machine>, es: seq<Event>, i: nat, id: nat)
    requires Run(ms, es)
  {
    exists a: nat, b: nat, c: nat :: c < i && Overtakes(ms, es, a, b, c, id)
  }

  // ---------- a race has its schedule ----------

  /** A commit was entered by one step. */
  lemma {:induction false} CommitHasItsStep(ms: seq<Machine>, es: seq<Event>, i: nat, c: Commit) returns (j: nat)
    requires Run(ms, es) && i < |ms| && c in ms[i].commits
    ensures j < i && es[j].Transact? && Enabled(ms[j], es[j])
    ensures c == CommitOf(ms[j], es[j].k, es[j].newId) && |ms[j].commits| < |ms[j + 1].commits|
  {
    hide Step, Sound, CommitOf;
    if i > 0 {
      assert Step(ms[i - 1], es[i - 1], ms[i]);
      if c in ms[i - 1].commits {
        j := CommitHasItsStep(ms, es, i - 1, c);
      } else {
        j := i - 1;
        StepEntersItsCommit(ms[i - 1], es[i - 1], ms[i], c);
      }
    }
  }

  lemma StepEntersItsCommit(m: Machine, e: Event, m': Machine, c: Commit)
    requires Step(m, e, m') && c !in m.commits && c in m'.commits
    ensures e.Transact? && Enabled(m, e) && c == CommitOf(m, e.k, e.newId) && |m.commits| < |m'.commits|
  {
    hide Prepare, Write, AuditOf, History;
  }

  /** What a request holds, one step has read. */
  lemma {:induction false} CheckedHasItsStep(ms: seq<Machine>, es: seq<Event>, i: nat, k: nat) returns (j: nat)
    requires Run(ms, es) && i < |ms| && k in ms[i].flights && ms[i].flights[k].phase.Checked?
    ensures j < i && es[j] == Check(k)
    ensures Prepare(ms[j].tables, ms[i].flights[k].call) == Success(ms[i].flights[k].phase.copy)
  {
    hide Step, Sound, Prepare;
    if i > 0 {
      assert Step(ms[i - 1], es[i - 1], ms[i]);
      StepReadsItsCopy(ms[i - 1], es[i - 1], ms[i], k);
      if es[i - 1] == Check(k) {
        j := i - 1;
      } else {
        j := CheckedHasItsStep(ms, es, i - 1, k);
      }
    }
  }

  lemma StepReadsItsCopy(m: Machine, e: Event, m': Machine, k: nat)
    requires Step(m, e, m') && k in m'.flights && m'.flights[k].phase.Checked?
    ensures if e == Check(k) then Prepare(m.tables, m'.flights[k].call) == Success(m'.flights[k].phase.copy)
            else k in m.flights && m.flights[k] == m'.flights[k]
  {
    hide Prepare, Write, AuditOf, History;
  }

  /** Somewhere between a draft and a decision is the step that decides. */
  lemma {:induction false} DecidingStep(ms: seq<Machine>, es: seq<Event>, i: nat, j: nat, id: nat) returns (b: nat)
    requires Run(ms, es) && i <= j < |ms| && id in ms[i].tables.rows && ms[i].tables.rows[id].status == DRAFT
    requires id in ms[j].tables.rows && ms[j].tables.rows[id].status != DRAFT
    ensures i <= b < j && id in ms[b].tables.rows && ms[b].tables.rows[id].status == DRAFT
    ensures id in ms[b + 1].tables.rows && ms[b + 1].tables.rows[id].status != DRAFT
    decreases j
  {
    hide Run, Extends;
    assert Run(ms, es);
    RunKeepsRows(ms, es, i, j - 1, id);
    b := j - 1;
    if ms[j - 1].tables.rows[id].status != DRAFT {
      b := DecidingStep(ms, es, i, j - 1, id);
    }
  }

  lemma RunKeepsRows(ms: seq<Machine>, es: seq<Event>, i: nat, j: nat, id: nat)
    requires Run(ms, es) && i <= j < |ms| && id in ms[i].tables.rows
    ensures id in ms[j].tables.rows
  {
    RunExtends(ms, es, i, j);
  }

  /** Only a committed transition of the row decides it. */
  lemma OnlyTransitionsDecide(m: Machine, e: Event, m': Machine, id: nat)
    requires Inv(m) && Step(m, e, m') && id in m.tables.rows && m.tables.rows[id].status == DRAFT
    requires id in m'.tables.rows && m'.tables.rows[id].status != DRAFT
    ensures e.Transact? && |m.commits| < |m'.commits|
            && m.flights[e.k].call.Transition? && m.flights[e.k].call.id == id
  {
    hide Sound, ReaderOk, AuditOf, Prepare, History;
    if e.Transact? {
      assert FlightOk(m.tables, m.flights[e.k]);
    }
  }

  lemma RaceHasItsSchedule(ms: seq<Machine>, es: seq<Event>, i: nat, id: nat)
    requires Run(ms, es) && i < |ms| && RacedOn(ms[i].commits, id)
    ensures Overtaken(ms, es, i, id)
  {
    var race :| race in ms[i].commits && race.id == id && IsRace(race);
    var c := CommitHasItsStep(ms, es, i, race);
    var k := es[c].k;
    var a := CheckedHasItsStep(ms, es, c, k);
    DeletionReadADraft(ms[a].tables, race.call);
    var b := DecidingStep(ms, es, a, c, id);
    assert Step(ms[a], es[a], ms[a + 1]) && Step(ms[b], es[b], ms[b + 1]);
    RunKeepsInv(ms, es, b);
    OnlyTransitionsDecide(ms[b], es[b], ms[b + 1], id);
    assert Overtakes(ms, es, a, b, c, id);
  }

  lemma DeletionReadADraft(t: Tables, call: Call)
    requires call.Delete? && Prepare(t, call).Success?
    ensures call.id in t.rows && t.rows[call.id].status == DRAFT
  {
  }

  // ---------- such a schedule makes a race ----------

  lemma TransitionDecides(m: Machine, e: Event, m': Machine)
    requires Inv(m) && Step(m, e, m') && e.Transact? && |m.commits| < |m'.commits|
    requires m.flights[e.k].call.Transition?
    ensures var id := m.flights[e.k].call.id; id in m'.tables.rows && m'.tables.rows[id].status != DRAFT
  {
    hide Sound, ReaderOk, AuditOf, Prepare, History;
    assert FlightOk(m.tables, m.flights[e.k]);
    var copy, call := m.flights[e.k].phase.copy, m.flights[e.k].call;
    DecisionEdges(copy.status, call.target);
  }

  lemma ScheduleMakesARace(ms: seq<Machine>, es: seq<Event>, a: nat, b: nat, c: nat, id: nat)
    requires ObservedRun(ms, es) && Overtakes(ms, es, a, b, c, id)
    ensures RacedOn(ms[c + 1].commits, id)
  {
    hide Sound, WellShaped, Observed, Inv, AllSeen;
    assert Step(ms[b], es[b], ms[b + 1]) && Step(ms[c], es[c], ms[c + 1]);
    RunKeepsInv(ms, es, b);
    TransitionDecides(ms[b], es[b], ms[b + 1]);
    DecisionsAreFinal(ms, es, b + 1, c, id);
    StepDeletesADecision(ms[c], es[c], ms[c + 1], id);
  }

  lemma StepDeletesADecision(m: Machine, e: Event, m': Machine, id: nat)
    requires Step(m, e, m') && e.Transact? && |m.commits| < |m'.commits|
    requires m.flights[e.k].call.Delete? && m.flights[e.k].call.id == id
    requires id in m.tables.rows && m.tables.rows[id].status != DRAFT
    ensures RacedOn(m'.commits, id)
  {
    hide AuditOf, Write, Prepare, History;
    var c := CommitOf(m, e.k, e.newId);
    assert c in m'.commits && IsRace(c);
  }

  lemma {:induction false} CommitsStay(ms: seq<Machine>, es: seq<Event>, i: nat, j: nat)
    requires Run(ms, es) && i <= j < |ms|
    ensures ms[i].commits <= ms[j].commits
    decreases j
  {
    hide Step, Sound;
    if i < j {
      CommitsStay(ms, es, i, j - 1);
      assert Step(ms[j - 1], es[j - 1], ms[j]);
      StepKeepsCommits(ms[j - 1], es[j - 1], ms[j]);
    }
  }

  lemma StepKeepsCommits(m: Machine, e: Event, m': Machine)
    requires Step(m, e, m')
    ensures m.commits <= m'.commits
  {
    hide Prepare, Write, AuditOf, History;
  }

  // ---------- the exact conditions ----------

  /** With reached versions, a committed deletion found its row decided iff a transition committed after its check. */
  lemma RacedOnExactlyWhen(ms: seq<Machine>, es: seq<Event>, i: nat, id: nat)
    requires ObservedRun(ms, es) && i < |ms|
    ensures RacedOn(ms[i].commits, id) <==> Overtaken(ms, es, i, id)
  {
    hide Run, WellShaped, Observed, RacedOn, IsRace, Overtakes;
    assert Run(ms, es);
    if RacedOn(ms[i].commits, id) {
      RaceHasItsSchedule(ms, es, i, id);
    }
    if Overtaken(ms, es, i, id) {
      var a: nat, b: nat, c: nat :| c < i && Overtakes(ms, es, a, b, c, id);
      ScheduleMakesARace(ms, es, a, b, c, id);
      CommitsStay(ms, es, c + 1, i);
      RacedOnStays(ms[c + 1].commits, ms[i].commits, id);
    }
  }

  lemma RacedOnStays(commits: seq<Commit>, later: seq<Commit>, id: nat)
    requires RacedOn(commits, id) && commits <= later
    ensures RacedOn(later, id)
  {
    var c :| c in commits && c.id == id && IsRace(c);
    assert c in later;
  }

  /**
   A decided row is found deleted if and only if a transition of it committed between the check and the write
   of a committed deletion.
   */
  lemma DecidedRowsAreDeletedExactlyWhen(ms: seq<Machine>, es: seq<Event>, i: nat, id: nat)
    requires ObservedRun(ms, es) && i < |ms| && !DeletedWhileDecided(ms[0].tables, id)
    ensures DeletedWhileDecided(ms[i].tables, id) <==> Overtaken(ms, es, i, id)
  {
    hide Run, WellShaped, Observed, DeletedWhileDecided, RacedOn, Overtaken;
    DecidedRowsAreDeletedOnlyByRace(ms, es, i, id);
    RacedOnExactlyWhen(ms, es, i, id);
  }

  /**
   The rows and revisions of an overlapping run are those of its committed calls run one at a time in commit
   order, none refused, if and only if no deletion was overtaken by a transition.
   */
  lemma RunsAreSerialisableExactlyWhen(ms: seq<Machine>, es: seq<Event>, i: nat)
    requires ObservedRun(ms, es) && i < |ms|
    ensures Replay(ms[0].tables, ms[i].commits) == Some(ms[i].tables)
            <==> forall id :: !Overtaken(ms, es, i, id)
  {
    hide Run, WellShaped, Observed, Overtaken, Replay;
    RunsAreSerialisable(ms, es, i);
    forall id: nat
      ensures RacedOn(ms[i].commits, id) <==> Overtaken(ms, es, i, id)
    {
      RacedOnExactlyWhen(ms, es, i, id);
    }
    RaceFreeExactlyWhen(ms[i].commits);
  }

  lemma RaceFreeExactlyWhen(commits: seq<Commit>)
    ensures RaceFree(commits) <==> forall id :: !RacedOn(commits, id)
  {
    if !RaceFree(commits) {
      var c :| c in commits && IsRace(c);
      assert RacedOn(commits, c.id);
    }
  }

  // ---------- no order of whole calls will do ----------

  ghost predicate InSomeOrder(start: Tables, t: Tables) {
    exists calls :: FreshIds(start, calls) && Calls(start, calls) == t
  }

  /** A whole call never deletes what it finds decided, nor decides what it finds deleted. */
  lemma CallsAloneNeverOvertake(t: Tables, call: Call, newId: nat, id: nat)
    requires !DeletedWhileDecided(t, id)
    ensures !DeletedWhileDecided(Next(t, call, newId), id)
  {
    hide AuditOf, ValidFields, History, IndexFree, CodeFree, CanTransition;
  }

  lemma {:induction false} WholeCallsNeverOvertake(t: Tables, calls: seq<(Call, nat)>, id: nat)
    requires !DeletedWhileDecided(t, id)
    ensures !DeletedWhileDecided(Calls(t, calls), id)
  {
    hide Next, DeletedWhileDecided;
    if calls != [] {
      var last := |calls| - 1;
      WholeCallsNeverOvertake(t, calls[..last], id);
      CallsAloneNeverOvertake(Calls(t, calls[..last]), calls[last].0, calls[last].1, id);
    }
  }

  /** What was deleted at the start is never overtaken. */
  lemma OvertakenRowsWereLive(ms: seq<Machine>, es: seq<Event>, i: nat, id: nat)
    requires Run(ms, es) && i < |ms| && Overtaken(ms, es, i, id)
    ensures !DeletedWhileDecided(ms[0].tables, id)
  {
    hide Step, Sound, Extends;
    var a: nat, b: nat, c: nat :| c < i && Overtakes(ms, es, a, b, c, id);
    assert Step(ms[c], es[c], ms[c + 1]);
    DeletionFoundItLive(ms[c], es[c], ms[c + 1]);
    RunExtends(ms, es, 0, c);
    if DeletedWhileDecided(ms[0].tables, id) {
      DeletedRowsStay(ms[0].tables, ms[c].tables, id);
      assert false;
    }
  }

  lemma DeletionFoundItLive(m: Machine, e: Event, m': Machine)
    requires Step(m, e, m') && e.Transact? && |m.commits| < |m'.commits| && m.flights[e.k].call.Delete?
    ensures Live(m.tables, m.flights[e.k].call.id)
  {
    hide AuditOf, Prepare, History;
  }

  lemma DeletedRowsStay(t: Tables, u: Tables, id: nat)
    requires Extends(t, u) && id in t.rows && t.rows[id].deleted
    ensures !Live(u, id)
  {
  }

  function CallsOf(commits: seq<Commit>): seq<(Call, nat)> {
    if commits == [] then []
    else var c := commits[|commits| - 1]; CallsOf(commits[..|commits| - 1]) + [(c.call, c.id)]
  }

  lemma CallsOneMore(t: Tables, calls: seq<(Call, nat)>, call: Call, newId: nat)
    requires FreshIds(t, calls) && (call.Create? ==> newId !in Calls(t, calls).rows)
    ensures FreshIds(t, calls + [(call, newId)])
    ensures Calls(t, calls + [(call, newId)]) == Next(Calls(t, calls), call, newId)
  {
    hide Next;
    var all := calls + [(call, newId)];
    assert all[..|calls|] == calls;
    assert forall i :: 0 <= i < |calls| ==> all[..i] == calls[..i] && all[i] == calls[i];
  }

  lemma StepIsInOrder(start: Tables, m: Machine, e: Event, m': Machine)
    requires Inv(m) && AllSeen(m) && Step(m, e, m') && RaceFree(m'.commits)
    requires FreshIds(start, CallsOf(m.commits)) && Calls(start, CallsOf(m.commits)) == m.tables
    ensures FreshIds(start, CallsOf(m'.commits)) && Calls(start, CallsOf(m'.commits)) == m'.tables
  {
    hide Inv, AllSeen, RaceFree, IsRace, FreshIds, Calls, Execute, Write, Prepare, AuditOf, History;
    if e.Transact? && Write(m.tables, m.flights[e.k].call, m.flights[e.k].phase.copy, e.newId).Success? {
      var c := CommitOf(m, e.k, e.newId);
      CommitIsTheCallAlone(m, e.k, e.newId);
      RaceFreeOneMore(m.commits, c);
      CallsOneMore(start, CallsOf(m.commits), c.call, c.id);
      assert (m.commits + [c])[..|m.commits|] == m.commits;
    }
  }

  lemma {:induction false} CommitsAreInOrder(ms: seq<Machine>, es: seq<Event>, i: nat)
    requires ObservedRun(ms, es) && i < |ms| && RaceFree(ms[i].commits)
    ensures FreshIds(ms[0].tables, CallsOf(ms[i].commits))
    ensures Calls(ms[0].tables, CallsOf(ms[i].commits)) == ms[i].tables
  {
    hide Step, Sound, WellShaped, Observed, Inv, AllSeen, Next, RaceFree;
    if i > 0 {
      CommitsStay(ms, es, i - 1, i);
      RaceFreeBefore(ms[i - 1].commits, ms[i].commits);
      CommitsAreInOrder(ms, es, i - 1);
      RunKeepsSeen(ms, es, i - 1);
      StepIsInOrder(ms[0].tables, ms[i - 1], es[i - 1], ms[i]);
    }
  }

  lemma RaceFreeBefore(commits: seq<Commit>, later: seq<Commit>)
    requires commits <= later && RaceFree(later)
    ensures RaceFree(commits)
  {
    assert forall c :: c in commits ==> c in later;
  }

  /**
   The tables of an overlapping run are those of some whole calls run one at a time, in whatever order, if and only
   if no deletion was overtaken by a transition.
   */
  lemma SomeOrderExplainsExactlyWhen(ms: seq<Machine>, es: seq<Event>, i: nat)
    requires ObservedRun(ms, es) && i < |ms|
    ensures InSomeOrder(ms[0].tables, ms[i].tables) <==> forall id: nat :: !Overtaken(ms, es, i, id)
  {
    hide Run, WellShaped, Observed, Overtaken, DeletedWhileDecided, Calls, FreshIds, RacedOn, RaceFree;
    if id: nat :| Overtaken(ms, es, i, id) {
      OvertakenRowsWereLive(ms, es, i, id);
      DecidedRowsAreDeletedExactlyWhen(ms, es, i, id);
      forall calls
        ensures Calls(ms[0].tables, calls) != ms[i].tables
      {
        WholeCallsNeverOvertake(ms[0].tables, calls, id);
      }
    } else {
      forall id: nat
        ensures !RacedOn(ms[i].commits, id)
      {
        RacedOnExactlyWhen(ms, es, i, id);
      }
      RaceFreeExactlyWhen(ms[i].commits);
      CommitsAreInOrder(ms, es, i);
    }
  }
}
