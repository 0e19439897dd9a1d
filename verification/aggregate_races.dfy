/** Schedules that leave the transition graph of a shared aggregate, and exactly which requests can cause one. */
module AggregateRaces {
  import opened Outcomes
  import opened StatusGraph
  import opened Aggregates
  import Decisions

  /** A stretch of a run, with reached versions only. */
  ghost predicate Path(kind: Kind, ms: seq<Machine>, es: seq<Event>) {
    && |ms| == |es| + 1
    && (forall i :: 0 <= i < |es| ==> Step(kind, ms[i], es[i], ms[i + 1]))
    && ReachedFrom(ms, es, 0)
  }

  ghost predicate ReachedFrom(ms: seq<Machine>, es: seq<Event>, from: nat)
    requires |ms| == |es| + 1
  {
    forall i :: from <= i < |es| && es[i].Arrive? ==> Observed(ms[i].rows, es[i].call)
  }

  lemma PathsJoin(kind: Kind, ms: seq<Machine>, es: seq<Event>, ms': seq<Machine>, es': seq<Event>)
    requires Path(kind, ms, es) && Path(kind, ms', es') && ms'[0] == ms[|es|]
    ensures Path(kind, ms + ms'[1..], es + es')
    ensures |ms + ms'[1..]| == |es + es'| + 1 && (ms + ms'[1..])[|es + es'|] == ms'[|es'|]
  {
    hide Step, Observed;
    var all, events := ms + ms'[1..], es + es';
    assert forall i :: 0 <= i < |ms'| ==> all[|es| + i] == ms'[i];
    forall i | 0 <= i < |events|
      ensures Step(kind, all[i], events[i], all[i + 1])
      ensures events[i].Arrive? ==> Observed(all[i].rows, events[i].call)
    {
      if i < |es| {
        assert Step(kind, ms[i], es[i], ms[i + 1]);
      } else {
        assert Step(kind, ms'[i - |es|], es'[i - |es|], ms'[i - |es| + 1]);
      }
    }
  }

  lemma EditIsChecked(kind: Kind, m: Machine, k: nat, call: Call) returns (m1: Machine, m2: Machine)
    requires k !in m.flights && call.Edits() && Live(m.rows, call.id)
    requires Objection(kind, m.rows[call.id], call) == None
    ensures Step(kind, m, Arrive(k, call), m1) && Step(kind, m1, Check(k), m2) && m1.rows == m.rows
    ensures m2 == m.(flights := m.flights[k := Flight(call, Checked(m.rows[call.id]))])
  {
    hide Objection;
    m1 := m.(flights := m.flights[k := Flight(call, Arrived)]);
    m2 := m.(flights := m.flights[k := Flight(call, Checked(m.rows[call.id]))]);
    assert Step(kind, m, Arrive(k, call), m1) && Step(kind, m1, Check(k), m2);
  }

  /** One edit that nothing interrupts: it arrives, is checked and commits, and every other request stays put. */
  lemma EditRunsAlone(kind: Kind, m: Machine, k: nat, call: Call) returns (ms: seq<Machine>, es: seq<Event>)
    requires k !in m.flights && call.Edits() && Live(m.rows, call.id)
    requires call.expected == m.rows[call.id].version && Objection(kind, m.rows[call.id], call) == None
    ensures |ms| == 4 && |es| == 3 && Path(kind, ms, es) && ms[0] == m
    ensures ms[3].rows == m.rows[call.id := Edited(m.rows[call.id], call)]
    ensures ms[3].flights == m.flights[k := Flight(call, Committed)]
  {
    hide Objection;
    var m1, m2 := EditIsChecked(kind, m, k, call);
    var m3 := AfterTransact(m2, k, 0);
    es := [Arrive(k, call), Check(k), Transact(k, 0)];
    ms := [m, m1, m2, m3];
    assert Step(kind, m2, es[2], m3);
  }

  /** A valid edit of the row, of no further interest. */
  function Touch(rows: Table, id: nat): Call
    requires id in rows
  {
    var business := Decisions.Business("name", "", "facility", "owner", "", "", 0.0, "", 0, "evidence", "related");
    Update(id, rows[id].version, business)
  }

  /** The edit was checked on a row with this status, and waits with a version that is still to come. */
  ghost predicate Waits(m: Machine, call: Call, copy: Row) {
    && call.Edits() && 1 in m.flights && m.flights[1] == Flight(call, Checked(copy))
    && Live(m.rows, call.id) && m.rows[call.id].code != "" && m.rows[call.id].status == copy.status
    && m.rows[call.id].version < call.expected
  }

  ghost predicate Unlawful(kind: Kind, m: Machine, call: Call) {
    exists c :: c in m.commits && c.k == 1 && c.call == call && !Lawful(kind, c)
  }

  lemma TouchRunsAlone(kind: Kind, m: Machine, k: nat, call: Call, copy: Row)
    returns (ms: seq<Machine>, es: seq<Event>)
    requires Waits(m, call, copy) && m.rows[call.id].version + 1 < call.expected
    requires forall j :: j in m.flights ==> j < k
    ensures |ms| == 4 && |es| == 3 && Path(kind, ms, es) && ms[0] == m && Waits(ms[3], call, copy)
    ensures ms[3].rows[call.id].version == m.rows[call.id].version + 1
    ensures forall j :: j in ms[3].flights ==> j < k + 1
  {
    hide Path;
    ms, es := EditRunsAlone(kind, m, k, Touch(m.rows, call.id));
  }

  /** Other edits bring the version up to it, the last of them a transition, which the waiting edit then overwrites. */
  lemma TheVersionComes(kind: Kind, m: Machine, k: nat, call: Call, copy: Row, target: string)
    returns (ms: seq<Machine>, es: seq<Event>)
    requires Waits(m, call, copy) && forall j :: j in m.flights ==> j < k
    requires CanTransition(kind.graph, copy.status, target) && target != copy.status
    requires call.Transition? ==> target == call.target && !CanTransition(kind.graph, target, target)
    ensures |ms| == |es| + 1 && Path(kind, ms, es) && ms[0] == m && Unlawful(kind, ms[|es|], call)
    decreases call.expected - m.rows[call.id].version
  {
    hide Path, Unlawful, CanTransition;
    var ms1, es1, ms2, es2;
    if m.rows[call.id].version + 1 < call.expected {
      ms1, es1 := TouchRunsAlone(kind, m, k, call, copy);
      ms2, es2 := TheVersionComes(kind, ms1[3], k + 1, call, copy, target);
    } else {
      ms1, es1 := EditRunsAlone(kind, m, k, Transition(call.id, m.rows[call.id].version, target));
      ms2, es2 := StaleEditIsWritten(kind, ms1[3], call, copy, target);
    }
    PathsJoin(kind, ms1, es1, ms2, es2);
    ms, es := ms1 + ms2[1..], es1 + es2;
  }

  /** The edit still holds the row it was checked on, and writes its status, or an edge from it, over the new one. */
  lemma StaleEditIsWritten(kind: Kind, m: Machine, call: Call, copy: Row, target: string)
    returns (ms: seq<Machine>, es: seq<Event>)
    requires call.Edits() && 1 in m.flights && m.flights[1] == Flight(call, Checked(copy))
    requires Live(m.rows, call.id) && m.rows[call.id].version == call.expected
    requires m.rows[call.id].status == target != copy.status
    requires call.Transition? ==> target == call.target && !CanTransition(kind.graph, target, target)
    ensures |ms| == 2 && |es| == 1 && Path(kind, ms, es) && ms[0] == m && Unlawful(kind, ms[1], call)
  {
    es := [Transact(1, 0)];
    ms := [m, AfterTransact(m, 1, 0)];
    assert Step(kind, m, es[0], ms[1]);
    var c := ms[1].commits[|m.commits|];
    assert c in ms[1].commits && !Lawful(kind, c);
  }

  /** A run in which the call arrives first, and all later edits carry versions that have been reached. */
  ghost predicate RunAfter(kind: Kind, m: Machine, call: Call, ms: seq<Machine>, es: seq<Event>) {
    && Run(kind, ms, es) && ms[0] == m && es != [] && es[0] == Arrive(1, call) && ReachedFrom(ms, es, 1)
  }

  ghost predicate CanLeaveTheGraph(kind: Kind, m: Machine, call: Call) {
    exists ms, es :: RunAfter(kind, m, call, ms, es) && Unlawful(kind, ms[|es|], call)
  }

  /**
   The exact condition for lawful edits, one request at a time: an edit that its guards let pass can undo a
   transition it never saw, or make one the graph does not have, if and only if it carries a version above the row's.
   */
  lemma EditCanLeaveTheGraphExactlyWhen(kind: Kind, m: Machine, call: Call)
    requires kind in {BRIDGE_ASSET, INSPECTION_ROUND, DEFECT_FINDING}
    requires m.flights == map[] && m.commits == [] && call.Edits()
    requires Live(m.rows, call.id) && m.rows[call.id].code != "" && m.rows[call.id].status in kind.graph
    requires Objection(kind, m.rows[call.id], call) == None
    ensures CanLeaveTheGraph(kind, m, call) <==> m.rows[call.id].version < call.expected
  {
    hide RunAfter, Unlawful, Objection;
    if m.rows[call.id].version < call.expected {
      UnreachedVersionLeavesTheGraph(kind, m, call);
    } else {
      forall ms, es | RunAfter(kind, m, call, ms, es)
        ensures |ms| == |es| + 1 && !Unlawful(kind, ms[|es|], call)
      {
        ReachedVersionIsLawful(kind, m, call, ms, es);
      }
    }
  }

  lemma ReachedVersionIsLawful(kind: Kind, m: Machine, call: Call, ms: seq<Machine>, es: seq<Event>)
    requires RunAfter(kind, m, call, ms, es) && call.Edits() && Observed(m.rows, call)
    ensures |ms| == |es| + 1 && !Unlawful(kind, ms[|es|], call)
  {
    hide Step, Lawful, Observed;
    if Unlawful(kind, ms[|es|], call) {
      var c :| c in ms[|es|].commits && c.k == 1 && c.call == call && !Lawful(kind, c);
      CommitsAreLawful(kind, ms, es, |es|, c);
      assert false;
    }
  }

  /** Where the row goes on to behind the edit's back. */
  lemma Onward(kind: Kind, row: Row, call: Call) returns (target: string)
    requires kind in {BRIDGE_ASSET, INSPECTION_ROUND, DEFECT_FINDING}
    requires call.Edits() && row.status in kind.graph && Objection(kind, row, call) == None
    ensures CanTransition(kind.graph, row.status, target) && target != row.status
    ensures call.Transition? ==> target == call.target && !CanTransition(kind.graph, target, target)
  {
    hide ValidFields;
    BridgeAssetGraphGoesOn();
    InspectionRoundGraphGoesOn();
    DefectFindingGraphGoesOn();
    if call.Transition? {
      target := call.target;
    } else {
      target :| CanTransition(kind.graph, row.status, target);
    }
  }

  lemma UnreachedVersionLeavesTheGraph(kind: Kind, m: Machine, call: Call)
    requires kind in {BRIDGE_ASSET, INSPECTION_ROUND, DEFECT_FINDING}
    requires m.flights == map[] && m.commits == [] && call.Edits()
    requires Live(m.rows, call.id) && m.rows[call.id].code != "" && m.rows[call.id].status in kind.graph
    requires Objection(kind, m.rows[call.id], call) == None && m.rows[call.id].version < call.expected
    ensures CanLeaveTheGraph(kind, m, call)
  {
    hide Objection, Path, Unlawful, CanTransition, Step, RunAfter;
    var copy := m.rows[call.id];
    var m1, m2 := EditIsChecked(kind, m, 1, call);
    var target := Onward(kind, copy, call);
    var ms, es := TheVersionComes(kind, m2, 2, call, copy, target);
    PathAfterCheckIsARun(kind, m, m1, call, ms, es);
    var all, events := [m, m1] + ms, [Arrive(1, call), Check(1)] + es;
    assert all[|events|] == ms[|es|];
  }

  lemma PathAfterCheckIsARun(kind: Kind, m: Machine, m1: Machine, call: Call, ms: seq<Machine>, es: seq<Event>)
    requires m.flights == map[] && m.commits == [] && Path(kind, ms, es)
    requires Step(kind, m, Arrive(1, call), m1) && Step(kind, m1, Check(1), ms[0])
    ensures RunAfter(kind, m, call, [m, m1] + ms, [Arrive(1, call), Check(1)] + es)
  {
    hide Step, Observed;
    var all, events := [m, m1] + ms, [Arrive(1, call), Check(1)] + es;
    forall i | 0 <= i < |events|
      ensures Step(kind, all[i], events[i], all[i + 1])
      ensures 1 <= i && events[i].Arrive? ==> Observed(all[i].rows, events[i].call)
    {
      if 2 <= i {
        assert all[i] == ms[i - 2] && all[i + 1] == ms[i - 1];
        assert Step(kind, ms[i - 2], es[i - 2], ms[i - 1]);
      }
    }
  }
}
