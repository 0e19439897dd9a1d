/** Schedules that break finality, and exactly which requests can take part in one. */
module Races {
  import opened Outcomes
  import opened StatusGraph
  import opened Decisions
  import opened RevisionChain
  import opened Interleaving
  import opened ObservedVersions
  import opened Serialisation

  // ---------- pieces of runs ----------

  ghost predicate ObservedArrivals(ms: seq<Machine>, es: seq<Event>, from: nat)
    requires |ms| == |es| + 1
  {
    forall i :: from <= i < |es| && es[i].Arrive? ==> Observed(ms[i].tables, es[i].call)
  }

  /** A stretch of a run, with observed versions only. */
  ghost predicate Path(ms: seq<Machine>, es: seq<Event>) {
    && |ms| == |es| + 1
    && (forall i :: 0 <= i < |es| ==> Step(ms[i], es[i], ms[i + 1]))
    && ObservedArrivals(ms, es, 0)
  }

  lemma PathsJoin(ms: seq<Machine>, es: seq<Event>, ms': seq<Machine>, es': seq<Event>)
    requires Path(ms, es) && Path(ms', es') && ms'[0] == ms[|es|]
    ensures Path(ms + ms'[1..], es + es')
  {
    hide Step, Observed;
    var all, events := ms + ms'[1..], es + es';
    assert forall i :: 0 <= i < |ms'| ==> all[|es| + i] == ms'[i];
    forall i | 0 <= i < |events|
      ensures Step(all[i], events[i], all[i + 1])
      ensures events[i].Arrive? ==> Observed(all[i].tables, events[i].call)
    {
      if i < |es| {
        assert Step(ms[i], es[i], ms[i + 1]);
      } else {
        assert Step(ms'[i - |es|], es'[i - |es|], ms'[i - |es| + 1]);
      }
    }
  }

  lemma PathKeepsInv(ms: seq<Machine>, es: seq<Event>)
    requires Path(ms, es) && Inv(ms[0])
    ensures Inv(ms[|es|])
    decreases |es|
  {
    hide Step, Inv, Observed;
    if es != [] {
      assert Step(ms[0], es[0], ms[1]);
      StepKeepsInv(ms[0], es[0], ms[1]);
      PathKeepsInv(ms[1..], es[1..]);
    }
  }

  lemma CurrentVersionIsObserved(t: Tables, call: Call)
    requires Sound(t) && call.Edits() && call.id in t.rows && call.expected == t.rows[call.id].version
    ensures Observed(t, call)
  {
    var h := History(t.revisions, call.id);
    assert SoundRow(t.rows[call.id], h);
    HistoryMembers(t.revisions, call.id, h[|h| - 1]);
  }

  lemma EditIsChecked(m: Machine, k: nat, call: Call) returns (m1: Machine, m2: Machine)
    requires k !in m.flights && call.Edits() && Live(m.tables, call.id)
    requires Objection(m.tables.rows[call.id], call) == None
    ensures Step(m, Arrive(k, call), m1) && Step(m1, Check(k), m2) && m1.tables == m.tables
    ensures m2 == m.(flights := m.flights[k := Flight(call, Checked(m.tables.rows[call.id]))])
  {
    hide Objection;
    m1 := m.(flights := m.flights[k := Flight(call, Arrived)]);
    m2 := AfterCheck(m1, k);
    assert Step(m, Arrive(k, call), m1) && Step(m1, Check(k), m2);
  }

  lemma EditCommits(m: Machine, k: nat, call: Call) returns (m': Machine)
    requires Sound(m.tables) && call.Edits() && Live(m.tables, call.id)
    requires k in m.flights && m.flights[k] == Flight(call, Checked(m.tables.rows[call.id]))
    requires call.expected == m.tables.rows[call.id].version
    ensures Step(m, Transact(k, 0), m')
    ensures m'.tables.rows == m.tables.rows[call.id := Edited(m.tables.rows[call.id], call)]
    ensures m'.flights
            == m.flights[k := Flight(call, Written(AuditOf(call, m.tables.rows[call.id], call.id)))]
  {
    hide Sound, AuditOf;
    EditIsWrittenExactlyWhen(m.tables, call, m.tables.rows[call.id], 0);
    m' := AfterTransact(m, k, 0);
    assert Step(m, Transact(k, 0), m');
  }

  /** One edit that nothing interrupts: it arrives, is checked and commits, and every other request stays put. */
  lemma EditRunsAlone(m: Machine, k: nat, call: Call) returns (ms: seq<Machine>, es: seq<Event>)
    requires Inv(m) && k !in m.flights && call.Edits() && Live(m.tables, call.id)
    requires call.expected == m.tables.rows[call.id].version && Objection(m.tables.rows[call.id], call) == None
    ensures |ms| == 4 && |es| == 3 && Path(ms, es) && ms[0] == m && Inv(ms[3])
    ensures ms[3].tables.rows == m.tables.rows[call.id := Edited(m.tables.rows[call.id], call)]
    ensures ms[3].flights
            == m.flights[k := Flight(call, Written(AuditOf(call, m.tables.rows[call.id], call.id)))]
  {
    hide Sound, Objection, AuditOf, ReaderOk, FlightOk, Observed, Step;
    var m1, m2 := EditIsChecked(m, k, call);
    var m3 := EditCommits(m2, k, call);
    CurrentVersionIsObserved(m.tables, call);
    es := [Arrive(k, call), Check(k), Transact(k, 0)];
    ms := [m, m1, m2, m3];
    PathKeepsInv(ms, es);
  }

  // ---------- an edit that carries a version nobody had reached ----------

  function SomeoneElse(actor: string): (other: string)
    ensures other != actor
  {
    actor + "+"
  }

  /** Another decision than the call would make. */
  function AnotherDecision(call: Call): (target: string)
    ensures target in {"observe", "urgent"} && target != DRAFT && (call.Transition? ==> target != call.target)
  {
    assert |DRAFT| == 5 && |"observe"| == 7 && |"urgent"| == 6;
    if call.Transition? && call.target == "observe" then "urgent" else "observe"
  }

  function DecisionOn(t: Tables, id: nat, target: string): Call
    requires id in t.rows
  {
    Transition(id, t.rows[id].version, target, "reviewed", SomeoneElse(t.rows[id].preparedBy), REVIEWER, "request")
  }

  lemma DraftsCanBeDecided(t: Tables, id: nat, target: string)
    requires id in t.rows && t.rows[id].status == DRAFT && target in {"observe", "urgent"}
    ensures Objection(t.rows[id], DecisionOn(t, id, target)) == None
  {
    DecisionEdges(t.rows[id].status, target);
  }

  /** A valid revision of the draft, of no further interest. */
  function Redraft(t: Tables, id: nat): Call
    requires id in t.rows
  {
    var business := Business("name", "", "facility", "owner", "", "", 0.0, "", 0, "evidence", "related");
    Update(id, t.rows[id].version, business, t.rows[id].preparedBy, ADMIN, "request")
  }

  lemma DraftsCanBeRedrafted(t: Tables, id: nat)
    requires Sound(t) && id in t.rows && t.rows[id].status == DRAFT
    ensures Objection(t.rows[id], Redraft(t, id)) == None
  {
    hide Records, History;
    assert SoundRow(t.rows[id], History(t.revisions, id));
  }

  /** The edit was checked on a draft and waits with a version that is still to come. */
  ghost predicate Waits(m: Machine, call: Call, copy: Decision) {
    && Inv(m) && call.Edits() && copy.status == DRAFT
    && 1 in m.flights && m.flights[1] == Flight(call, Checked(copy))
    && Live(m.tables, call.id) && m.tables.rows[call.id].status == DRAFT
    && m.tables.rows[call.id].version < call.expected
  }

  /** A decided row, or its history, is not what it was. */
  ghost predicate Overwrites(ms: seq<Machine>, i: nat, j: nat, id: nat) {
    && i < j < |ms|
    && id in ms[i].tables.rows && ms[i].tables.rows[id].status != DRAFT
    && !StaysDecided(ms[i].tables, ms[j].tables, id)
  }

  /** A decided row has another status later on. */
  ghost predicate Redecides(ms: seq<Machine>, i: nat, j: nat, id: nat) {
    && i < j < |ms|
    && id in ms[i].tables.rows && ms[i].tables.rows[id].status != DRAFT
    && id in ms[j].tables.rows && ms[j].tables.rows[id].status != ms[i].tables.rows[id].status
  }

  /** While it waits, a redraft moves the version on by one. */
  lemma RedraftRunsAlone(m: Machine, k: nat, call: Call, copy: Decision) returns (ms: seq<Machine>, es: seq<Event>)
    requires Waits(m, call, copy) && m.tables.rows[call.id].version + 1 < call.expected
    requires forall j :: j in m.flights ==> j < k
    ensures |ms| == 4 && |es| == 3 && Path(ms, es) && ms[0] == m && Waits(ms[3], call, copy)
    ensures ms[3].tables.rows[call.id].version == m.tables.rows[call.id].version + 1
    ensures forall j :: j in ms[3].flights ==> j < k + 1
  {
    DraftsCanBeRedrafted(m.tables, call.id);
    hide Inv, Path, Objection;
    ms, es := EditRunsAlone(m, k, Redraft(m.tables, call.id));
  }

  /** Other edits bring the version up to it, the last of them a decision, which the waiting edit then overwrites. */
  lemma TheVersionComes(m: Machine, k: nat, call: Call, copy: Decision) returns (ms: seq<Machine>, es: seq<Event>)
    requires Waits(m, call, copy) && forall j :: j in m.flights ==> j < k
    ensures |ms| == |es| + 1 && Path(ms, es) && ms[0] == m && 2 <= |es| && Redecides(ms, |es| - 1, |es|, call.id)
    decreases call.expected - m.tables.rows[call.id].version
  {
    hide Inv, Path, Objection, Redecides;
    if m.tables.rows[call.id].version + 1 < call.expected {
      var ms1, es1 := RedraftRunsAlone(m, k, call, copy);
      var ms2, es2 := TheVersionComes(ms1[3], k + 1, call, copy);
      JoinedPathRedecides(ms1, es1, ms2, es2, call.id);
      ms, es := ms1 + ms2[1..], es1 + es2;
    } else {
      ms, es := TheDecisionComes(m, k, call, copy);
    }
  }

  lemma TheDecisionComes(m: Machine, k: nat, call: Call, copy: Decision) returns (ms: seq<Machine>, es: seq<Event>)
    requires Waits(m, call, copy) && m.tables.rows[call.id].version + 1 == call.expected && k !in m.flights
    ensures |ms| == |es| + 1 && Path(ms, es) && ms[0] == m && 2 <= |es| && Redecides(ms, |es| - 1, |es|, call.id)
  {
    var target := AnotherDecision(call);
    DraftsCanBeDecided(m.tables, call.id, target);
    hide Inv, Path, Objection, Redecides;
    var ms1, es1 := EditRunsAlone(m, k, DecisionOn(m.tables, call.id, target));
    var ms2, es2 := StaleEditIsWritten(ms1[3], call, copy);
    JoinedPathRedecides(ms1, es1, ms2, es2, call.id);
    ms, es := ms1 + ms2[1..], es1 + es2;
  }

  lemma JoinedPathRedecides(ms: seq<Machine>, es: seq<Event>, ms': seq<Machine>, es': seq<Event>, id: nat)
    requires Path(ms, es) && Path(ms', es') && ms'[0] == ms[|es|]
    requires 1 <= |es'| && Redecides(ms', |es'| - 1, |es'|, id)
    ensures Path(ms + ms'[1..], es + es')
    ensures Redecides(ms + ms'[1..], |es + es'| - 1, |es + es'|, id)
  {
    hide Step, Observed;
    PathsJoin(ms, es, ms', es');
    var all := ms + ms'[1..];
    assert forall i :: 0 <= i < |ms'| ==> all[|es| + i] == ms'[i];
  }

  /** The edit still holds the draft it was checked on, and writes all of it. */
  lemma StaleEditIsWritten(m: Machine, call: Call, copy: Decision) returns (ms: seq<Machine>, es: seq<Event>)
    requires Inv(m) && 1 in m.flights && m.flights[1] == Flight(call, Checked(copy))
    requires call.Edits() && copy.status == DRAFT
    requires Live(m.tables, call.id) && m.tables.rows[call.id].version == call.expected
    requires m.tables.rows[call.id].status == AnotherDecision(call)
    ensures |ms| == 2 && |es| == 1 && Path(ms, es) && ms[0] == m && Redecides(ms, 0, 1, call.id)
  {
    hide Sound, AuditOf, ReaderOk, FlightOk;
    EditIsWrittenExactlyWhen(m.tables, call, copy, 0);
    es := [Transact(1, 0)];
    ms := [m, AfterTransact(m, 1, 0)];
    assert Step(m, es[0], ms[1]);
  }

  /** A run in which the call arrives first, and all later edits carry versions that have been reached. */
  ghost predicate RunAfter(m: Machine, call: Call, ms: seq<Machine>, es: seq<Event>) {
    && Run(ms, es) && ms[0] == m && es != [] && es[0] == Arrive(1, call) && ObservedArrivals(ms, es, 1)
  }

  ghost predicate CanOverwrite(m: Machine, call: Call) {
    call.Edits() && exists ms, es, i: nat, j: nat :: RunAfter(m, call, ms, es) && Overwrites(ms, i, j, call.id)
  }

  ghost predicate CanRedecide(m: Machine, call: Call) {
    call.Edits() && exists ms, es, i: nat, j: nat :: RunAfter(m, call, ms, es) && Redecides(ms, i, j, call.id)
  }

  /**
   The exact condition for finality, one request at a time: an update or a transition that its guards let pass
   can change a later decision, in its status or in anything else, if and only if it carries a version above the
   draft's. (Request binding rejects version 0, which no row ever has.)
   */
  lemma EditCanOverwriteExactlyWhen(m: Machine, call: Call)
    requires Start(m) && WellShaped(m.tables) && call.Edits() && 1 <= call.expected
    requires Live(m.tables, call.id) && Objection(m.tables.rows[call.id], call) == None
    ensures CanOverwrite(m, call) <==> m.tables.rows[call.id].version < call.expected
    ensures CanRedecide(m, call) <==> m.tables.rows[call.id].version < call.expected
  {
    hide Start, Objection, Overwrites, Redecides, RunAfter, WellShaped;
    if m.tables.rows[call.id].version < call.expected {
      UnreachedVersionRedecides(m, call);
    }
    forall ms, es, i: nat, j: nat | RunAfter(m, call, ms, es) && Redecides(ms, i, j, call.id)
      ensures Overwrites(ms, i, j, call.id)
    {
      RedecidingOverwrites(ms, i, j, call.id);
    }
    if call.expected <= m.tables.rows[call.id].version {
      forall ms, es, i: nat, j: nat | RunAfter(m, call, ms, es)
        ensures !Overwrites(ms, i, j, call.id)
      {
        ReachedVersionIsSafe(m, call, ms, es, i, j);
      }
    }
  }

  lemma RedecidingOverwrites(ms: seq<Machine>, i: nat, j: nat, id: nat)
    requires Redecides(ms, i, j, id)
    ensures Overwrites(ms, i, j, id)
  {
  }

  lemma UnreachedVersionRedecides(m: Machine, call: Call)
    requires Start(m) && call.Edits() && Live(m.tables, call.id)
    requires Objection(m.tables.rows[call.id], call) == None && m.tables.rows[call.id].version < call.expected
    ensures CanRedecide(m, call)
  {
    var copy := m.tables.rows[call.id];
    DecisionEdges(copy.status, if call.Transition? then call.target else DRAFT);
    hide Sound, Redecides, CanRedecide, Objection, Step;
    var m1, m2 := EditIsChecked(m, 1, call);
    StepKeepsInv(m, Arrive(1, call), m1);
    StepKeepsInv(m1, Check(1), m2);
    var ms, es := TheVersionComes(m2, 2, call, copy);
    WaitingPathIsARun(m, m1, call, ms, es);
  }

  lemma WaitingPathIsARun(m: Machine, m1: Machine, call: Call, ms: seq<Machine>, es: seq<Event>)
    requires Start(m) && call.Edits() && Path(ms, es) && 2 <= |es| && Redecides(ms, |es| - 1, |es|, call.id)
    requires Step(m, Arrive(1, call), m1) && Step(m1, Check(1), ms[0])
    ensures CanRedecide(m, call)
  {
    hide Step, Start, Path, RunAfter;
    PathAfterCheckIsARun(m, m1, call, ms, es);
    var all, events := [m, m1] + ms, [Arrive(1, call), Check(1)] + es;
    PathLength(ms, es);
    assert all[|es| + 1] == ms[|es| - 1] && all[|es| + 2] == ms[|es|];
    assert Redecides(all, |es| + 1, |es| + 2, call.id);
  }

  lemma PathLength(ms: seq<Machine>, es: seq<Event>)
    requires Path(ms, es)
    ensures |ms| == |es| + 1
  {
  }

  lemma PathAfterCheckIsARun(m: Machine, m1: Machine, call: Call, ms: seq<Machine>, es: seq<Event>)
    requires Start(m) && Path(ms, es)
    requires Step(m, Arrive(1, call), m1) && Step(m1, Check(1), ms[0])
    ensures RunAfter(m, call, [m, m1] + ms, [Arrive(1, call), Check(1)] + es)
  {
    hide Step, Start, Observed;
    var all, events := [m, m1] + ms, [Arrive(1, call), Check(1)] + es;
    forall i | 0 <= i < |events|
      ensures Step(all[i], events[i], all[i + 1])
      ensures 1 <= i && events[i].Arrive? ==> Observed(all[i].tables, events[i].call)
    {
      if 2 <= i {
        assert all[i] == ms[i - 2] && all[i + 1] == ms[i - 1];
        assert Step(ms[i - 2], es[i - 2], ms[i - 1]);
      }
    }
  }

  lemma ReachedVersionIsSafe(m: Machine, call: Call, ms: seq<Machine>, es: seq<Event>, i: nat, j: nat)
    requires Start(m) && WellShaped(m.tables) && call.Edits() && call.id in m.tables.rows
    requires 1 <= call.expected <= m.tables.rows[call.id].version && RunAfter(m, call, ms, es)
    ensures !Overwrites(ms, i, j, call.id)
  {
    hide Step, WellShaped, Observed;
    if Overwrites(ms, i, j, call.id) {
      ReachedVersionIsObserved(m.tables, call);
      assert ObservedRun(ms, es);
      DecisionsAreFinal(ms, es, i, j, call.id);
      assert false;
    }
  }

  lemma ReachedVersionIsObserved(t: Tables, call: Call)
    requires Sound(t) && call.Edits() && call.id in t.rows && 1 <= call.expected <= t.rows[call.id].version
    ensures Observed(t, call)
  {
    var h := History(t.revisions, call.id);
    assert SoundRow(t.rows[call.id], h);
    HistoryMembers(t.revisions, call.id, h[call.expected - 1]);
  }

  // ---------- a deletion ----------

  /**
   A deletion carries no version: any live draft can be decided between its check and its write. The decision is
   in the audit log then, but its own answer can come too late: the caller is told that there is no such row.
   */
  lemma DeletionCanOvertakeADecision(m: Machine, id: nat) returns (ms: seq<Machine>, es: seq<Event>)
    requires Start(m) && WellShaped(m.tables) && Live(m.tables, id) && m.tables.rows[id].status == DRAFT
    ensures ObservedRun(ms, es) && ms[0] == m && DeletedWhileDecided(ms[|es|].tables, id)
    ensures Log(2, true, false) in es && 2 in ms[|es|].flights
            && ms[|es|].flights[2].call.Transition? && ms[|es|].flights[2].phase == Failed(NotFound)
  {
    hide Sound, AuditOf, WellShaped, Observed, Path, ObservedRun, Objection;
    var call := Delete(id, "admin", "request");
    var m1, m2 := DeletionIsChecked(m, call);
    DraftsCanBeDecided(m.tables, id, "urgent");
    var ms1, es1 := EditRunsAlone(m2, 2, DecisionOn(m.tables, id, "urgent"));
    EntryNamesItsRow(DecisionOn(m.tables, id, "urgent"), m.tables.rows[id]);
    var ms2, es2 := DeletionIsWritten(ms1[3], call);
    PathsJoin(ms1, es1, ms2, es2);
    PathAfterCheckIsARun(m, m1, call, ms1 + ms2[1..], es1 + es2);
    ms := [m, m1] + (ms1 + ms2[1..]);
    es := [Arrive(1, call), Check(1)] + (es1 + es2);
    DeletionsAreObserved(m, call, ms, es);
    assert ms[|es|] == ms2[3] && Log(2, true, false) in es2;
  }

  lemma EntryNamesItsRow(call: Call, copy: Decision)
    requires call.Edits()
    ensures AuditOf(call, copy, call.id).entityId == call.id
  {
  }

  lemma DeletionIsChecked(m: Machine, call: Call) returns (m1: Machine, m2: Machine)
    requires Inv(m) && m.flights == map[] && call.Delete? && Live(m.tables, call.id)
    requires m.tables.rows[call.id].status == DRAFT
    ensures Step(m, Arrive(1, call), m1) && Step(m1, Check(1), m2) && Inv(m2) && m2.tables == m.tables
    ensures m2.flights == map[1 := Flight(call, Checked(m.tables.rows[call.id]))]
  {
    hide Sound, ReaderOk;
    m1 := m.(flights := m.flights[1 := Flight(call, Arrived)]);
    m2 := AfterCheck(m1, 1);
    assert Step(m, Arrive(1, call), m1) && Step(m1, Check(1), m2);
    StepKeepsInv(m, Arrive(1, call), m1);
    StepKeepsInv(m1, Check(1), m2);
  }

  /** The decision is logged, the row deleted, and the answer to the decision looked for in vain. */
  lemma DeletionIsWritten(m: Machine, call: Call) returns (ms: seq<Machine>, es: seq<Event>)
    requires call.Delete? && Live(m.tables, call.id) && m.tables.rows[call.id].status != DRAFT
    requires 1 in m.flights && m.flights[1].call == call && m.flights[1].phase.Checked?
    requires 2 in m.flights && m.flights[2].call.Transition? && m.flights[2].phase.Written?
    requires m.flights[2].phase.entry.entityId == call.id
    ensures |ms| == 4 && es == [Log(2, true, false), Transact(1, 0), Reply(2)] && Path(ms, es) && ms[0] == m
    ensures DeletedWhileDecided(ms[3].tables, call.id)
    ensures 2 in ms[3].flights && ms[3].flights[2] == m.flights[2].(phase := Failed(NotFound))
  {
    hide AuditOf;
    es := [Log(2, true, false), Transact(1, 0), Reply(2)];
    var m1 := AfterLog(m, 2, true, false);
    var m2 := AfterTransact(m1, 1, 0);
    var m3 := AfterReply(m2, 2);
    ms := [m, m1, m2, m3];
    assert Step(m, es[0], m1) && Step(m1, es[1], m2) && Step(m2, es[2], m3);
  }

  lemma DeletionsAreObserved(m: Machine, call: Call, ms: seq<Machine>, es: seq<Event>)
    requires RunAfter(m, call, ms, es) && WellShaped(m.tables) && call.Delete?
    ensures ObservedRun(ms, es)
  {
    hide Step, Start, WellShaped;
  }
}
