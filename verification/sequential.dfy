/** Calls that run one at a time: nothing moves between their reads and writes, so no version needs to be trusted. */
module SequentialCalls {
  import opened Outcomes
  import opened StatusGraph
  import opened Decisions
  import opened RevisionChain

  /** Everything a caller, the tables and the audit log see of one call; `stored` is the fate of its audit append. */
  datatype Outcome = Outcome(tables: Tables, log: seq<AuditRow>, response: Result<Response>)

  function Effect(t: Tables, log: seq<AuditRow>, call: Call, newId: nat, stored: bool): Outcome {
    match Execute(t, call, newId)
    case Failure(error) => Outcome(t, log, Failure(error))
    case Success(u) =>
      var id := RowId(call, newId);
      var log' := if stored then log + [AuditOf(call, Prepare(t, call).value, id)] else log;
      if !stored && (call.Transition? || call.Delete?) then Outcome(u, log', Failure(AuditFailure))
      else if call.Delete? then Outcome(u, log', Success(NoContent))
      else if Live(u, id) then Outcome(u, log', Success(Item(u.rows[id], History(u.revisions, id))))
      else Outcome(u, log', Failure(NotFound))
  }

  // ---------- what each call, run alone, comes to ----------

  /** A creation is accepted exactly when its fields are filled in and no row, live or deleted, has its code. */
  lemma CreateAlone(t: Tables, call: Call, newId: nat)
    requires Sound(t) && call.Create? && newId !in t.rows
    ensures var Create(code, b, actor, requestId) := call;
            var blank := code == "" || b.name == "" || b.facility == "" || b.owner == "" || b.evidence == ""
                         || b.relatedCode == "";
            var taken := exists id :: id in t.rows && t.rows[id].code == code;
            Execute(t, call, newId) ==
            if blank then Failure(InvalidInput)
            else if taken then Failure(DuplicateKey)
            else Success(Tables(t.rows[newId := Decision(code, b, "draft", 1, actor, false)],
                                t.revisions + [Revision(newId, 1, "draft", b.evidence, "decision draft created",
                                                        actor, requestId, Full(0, code, b, "draft", 1, actor))]))
    ensures Execute(t, call, newId).Success? ==>
              var u := Execute(t, call, newId).value;
              u.revisions == t.revisions + History(u.revisions, newId)
  {
    var r := RevisionOf(call, NewDraft(call), newId);
    CreateIsWrittenExactlyWhen(t, call, NewDraft(call), newId);
    NoStrayHistory(t, newId);
    HistoryOfAppend(t.revisions, r, newId);
  }

  /** A draft is edited by its preparer or an admin, at its current version: the fields are replaced, nothing else. */
  lemma UpdateAlone(t: Tables, call: Call)
    requires Sound(t) && call.Update?
    ensures Execute(t, call, 0).Success? <==>
            && call.id in t.rows && !t.rows[call.id].deleted && t.rows[call.id].status == "draft"
            && (call.actor == t.rows[call.id].preparedBy || call.role == "admin")
            && call.business.name != "" && call.business.facility != "" && call.business.owner != ""
            && call.business.evidence != "" && call.business.relatedCode != ""
            && t.rows[call.id].version == call.expected
    ensures Execute(t, call, 0).Success? ==>
              var Update(id, expected, b, actor, _, requestId) := call;
              var row := t.rows[id];
              var r := Revision(id, expected + 1, "draft", b.evidence, "draft business fields updated", actor,
                                requestId, Full(id, row.code, b, "draft", expected + 1, row.preparedBy));
              && Execute(t, call, 0).value
                 == Tables(t.rows[id := Decision(row.code, b, "draft", expected + 1, row.preparedBy, false)],
                           t.revisions + [r])
              && History(t.revisions + [r], id) == History(t.revisions, id) + [r]
  {
    CodesAreFilledIn(t, call.id);
    hide Sound;
    if Prepare(t, call).Success? {
      EditIsWrittenExactlyWhen(t, call, t.rows[call.id], 0);
      HistoryOfAppend(t.revisions, RevisionOf(call, t.rows[call.id], 0), call.id);
    }
  }

  lemma CodesAreFilledIn(t: Tables, id: nat)
    requires Sound(t)
    ensures id in t.rows ==> t.rows[id].code != ""
  {
    hide Records, Separated, DistinctCodes;
    assert id in t.rows ==> SoundRow(t.rows[id], History(t.revisions, id));
  }

  /** A refused update names the first thing wrong: the row, its status, the person, the fields, the version. */
  lemma UpdateRefusals(t: Tables, call: Call)
    requires Sound(t) && call.Update? && Execute(t, call, 0).Failure?
    ensures var Update(id, expected, b, actor, role, _) := call;
            Execute(t, call, 0).error ==
            if id !in t.rows || t.rows[id].deleted then NotFound
            else if t.rows[id].status != "draft" then DecisionLocked
            else if actor != t.rows[id].preparedBy && role != "admin" then NotDecisionOwner
            else if b.name == "" || b.facility == "" || b.owner == "" || b.evidence == "" || b.relatedCode == ""
            then InvalidInput
            else VersionConflict
  {
    CodesAreFilledIn(t, call.id);
    hide Sound;
    if Prepare(t, call).Success? {
      EditIsWrittenExactlyWhen(t, call, t.rows[call.id], 0);
    }
  }

  /** A live draft is deleted: the row is marked, its revisions stay; nothing else is ever deleted. */
  lemma DeleteAlone(t: Tables, call: Call)
    requires call.Delete?
    ensures Execute(t, call, 0) ==
            if call.id !in t.rows || t.rows[call.id].deleted then Failure(NotFound)
            else if t.rows[call.id].status != "draft" then Failure(DecisionLocked)
            else
              var row := t.rows[call.id];
              Success(Tables(t.rows[call.id := Decision(row.code, row.business, "draft", row.version,
                                                        row.preparedBy, true)], t.revisions))
  {
    if Prepare(t, call).Success? {
      DeleteIsWrittenExactlyWhen(t, call, Prepare(t, call).value, 0);
    }
  }

  /** A draft is decided by a reviewer or admin who did not prepare it: the status is replaced, nothing else. */
  lemma TransitionAlone(t: Tables, call: Call)
    requires Sound(t) && call.Transition?
    ensures Execute(t, call, 0).Success? <==>
            && call.id in t.rows && !t.rows[call.id].deleted && t.rows[call.id].status == "draft"
            && call.role in {"reviewer", "admin"} && call.actor != t.rows[call.id].preparedBy
            && call.target in {"observe", "restrict", "urgent"} && t.rows[call.id].version == call.expected
    ensures Execute(t, call, 0).Success? ==>
              var Transition(id, expected, target, reason, actor, _, requestId) := call;
              var row := t.rows[id];
              var r := Revision(id, expected + 1, target, row.business.evidence, reason, actor, requestId,
                                Full(id, row.code, row.business, target, expected + 1, row.preparedBy));
              && Execute(t, call, 0).value
                 == Tables(t.rows[id := Decision(row.code, row.business, target, expected + 1, row.preparedBy, false)],
                           t.revisions + [r])
              && History(t.revisions + [r], id) == History(t.revisions, id) + [r]
  {
    hide Sound;
    if Live(t, call.id) {
      DecisionEdges(t.rows[call.id].status, call.target);
    }
    if Prepare(t, call).Success? {
      EditIsWrittenExactlyWhen(t, call, t.rows[call.id], 0);
      HistoryOfAppend(t.revisions, RevisionOf(call, t.rows[call.id], 0), call.id);
    }
  }

  /** The row is there, and role and person are such as may decide it. */
  predicate MayDecide(t: Tables, call: Call)
    requires call.Transition?
  {
    Live(t, call.id) && call.role in {"reviewer", "admin"} && call.actor != t.rows[call.id].preparedBy
  }

  /** A refused transition names the first thing wrong: the row, the role, the person, the step, the version. */
  lemma TransitionRefusals(t: Tables, call: Call)
    requires Sound(t) && call.Transition? && Execute(t, call, 0).Failure?
    ensures var error := Execute(t, call, 0).error;
            && (error == NotFound <==> !Live(t, call.id))
            && (error == ReviewRole <==> Live(t, call.id) && call.role !in {"reviewer", "admin"})
            && (error == SeparationOfDuty <==> Live(t, call.id) && call.role in {"reviewer", "admin"}
                                               && call.actor == t.rows[call.id].preparedBy)
            && (error == InvalidTransition
                <==> MayDecide(t, call)
                     && !(t.rows[call.id].status == "draft" && call.target in {"observe", "restrict", "urgent"}))
            && (error == VersionConflict
                <==> MayDecide(t, call) && t.rows[call.id].version != call.expected
                     && t.rows[call.id].status == "draft" && call.target in {"observe", "restrict", "urgent"})
            && error in {NotFound, ReviewRole, SeparationOfDuty, InvalidTransition, VersionConflict}
  {
    hide Sound;
    if Live(t, call.id) {
      DecisionEdges(t.rows[call.id].status, call.target);
    }
    if Prepare(t, call).Success? {
      EditIsWrittenExactlyWhen(t, call, t.rows[call.id], 0);
    }
  }

  /**
   What a caller and the audit log get of a call. A refused one leaves no trace; a written one has its entry in the
   log if that could be stored; a transition or deletion whose entry was lost is reported as an error, any other
   written call answers with the row as it now is and its history.
   */
  lemma AnswerAlone(t: Tables, log: seq<AuditRow>, call: Call, newId: nat, stored: bool)
    ensures var e := Effect(t, log, call, newId, stored);
            match Execute(t, call, newId)
            case Failure(error) => e == Outcome(t, log, Failure(error))
            case Success(u) =>
              var id := if call.Create? then newId else call.id;
              && e.tables == u
              && e.log == (if stored then log + [AuditOf(call, Prepare(t, call).value, id)] else log)
              && id in u.rows
              && e.response == if !stored && (call.Transition? || call.Delete?) then Failure(AuditFailure)
                               else if call.Delete? then Success(NoContent)
                               else Success(Item(u.rows[id], History(u.revisions, id)))
  {
    hide History, IndexFree, CodeFree, ValidFields, AuditOf;
  }

  /** The entry of a written call: it names the caller and the request, and the statuses before and after. */
  lemma EntryAlone(t: Tables, call: Call, newId: nat)
    requires Execute(t, call, newId).Success?
    ensures var who := if call.actor == "" then "system" else call.actor;
            var request := if call.requestId == "" then "untracked" else call.requestId;
            var id := if call.Create? then newId else call.id;
            id in Execute(t, call, newId).value.rows
            && var after := Execute(t, call, newId).value.rows[id].status;
               AuditOf(call, Prepare(t, call).value, id) ==
               match call
               case Create(_, _, _, _) => AuditRow(who, request, "create", "PriorityDecision", id, "", after, "created")
               case Update(_, _, _, _, _, _) =>
                 AuditRow(who, request, "update", "PriorityDecision", id, t.rows[id].status, after,
                          "updated business fields")
               case Transition(_, _, _, reason, _, _, _) =>
                 AuditRow(who, request, "transition", "PriorityDecision", id, t.rows[id].status, after, reason)
               case Delete(_, _, _) =>
                 AuditRow(who, request, "delete", "PriorityDecision", id, t.rows[id].status, "deleted", "soft deleted")
  {
    hide History, IndexFree, CodeFree, ValidFields;
  }

  lemma ExecuteKeepsSound(t: Tables, call: Call, newId: nat)
    requires Sound(t) && (call.Create? ==> newId !in t.rows) && Execute(t, call, newId).Success?
    ensures Sound(Execute(t, call, newId).value) && Extends(t, Execute(t, call, newId).value)
  {
    hide Sound, Extends, CopyOk, Write;
    PreparedCopyIsOk(t, call);
    WriteKeepsSound(t, call, Prepare(t, call).value, newId);
  }

  lemma EffectKeepsSound(t: Tables, log: seq<AuditRow>, call: Call, newId: nat, stored: bool)
    requires call.Create? ==> newId !in t.rows
    ensures Sound(t) ==> Sound(Effect(t, log, call, newId, stored).tables)
  {
    hide Sound, Execute, History, AuditOf;
    if Sound(t) && Execute(t, call, newId).Success? {
      ExecuteKeepsSound(t, call, newId);
    }
  }

  /** One call with the id the table would give its row; a refused call changes nothing. */
  function Next(t: Tables, call: Call, newId: nat): Tables {
    match Execute(t, call, newId)
    case Success(u) => u
    case Failure(_) => t
  }

  function Calls(t: Tables, calls: seq<(Call, nat)>): Tables {
    if calls == [] then t else Next(Calls(t, calls[..|calls| - 1]), calls[|calls| - 1].0, calls[|calls| - 1].1)
  }

  /** The ids given out are fresh. */
  ghost predicate FreshIds(t: Tables, calls: seq<(Call, nat)>) {
    forall i :: 0 <= i < |calls| && calls[i].0.Create? ==> calls[i].1 !in Calls(t, calls[..i]).rows
  }

  lemma DecidedRowRefusesEveryCall(t: Tables, call: Call, newId: nat, id: nat)
    requires id in t.rows && t.rows[id].status != DRAFT && (call.Create? ==> newId !in t.rows)
    ensures id in Next(t, call, newId).rows && Next(t, call, newId).rows[id] == t.rows[id]
    ensures History(Next(t, call, newId).revisions, id) == History(t.revisions, id)
  {
    hide AuditOf, ValidFields;
    if Execute(t, call, newId).Success? {
      if !call.Create? {
        DecisionEdges(t.rows[call.id].status, if call.Transition? then call.target else DRAFT);
      }
      if !call.Delete? {
        HistoryOfAppend(t.revisions, RevisionOf(call, Prepare(t, call).value, newId), id);
      }
    }
  }

  /** A decided priority is never edited, decided again or deleted, whatever versions the calls carry. */
  lemma {:induction false} DecidedRowsOutlastAllCalls(t: Tables, calls: seq<(Call, nat)>, id: nat)
    requires FreshIds(t, calls) && id in t.rows && t.rows[id].status != DRAFT
    ensures id in Calls(t, calls).rows && Calls(t, calls).rows[id] == t.rows[id]
    ensures History(Calls(t, calls).revisions, id) == History(t.revisions, id)
  {
    hide Next, History;
    if calls != [] {
      var last := |calls| - 1;
      assert forall i :: 0 <= i <= last ==> calls[..last][..i] == calls[..i];
      DecidedRowsOutlastAllCalls(t, calls[..last], id);
      DecidedRowRefusesEveryCall(Calls(t, calls[..last]), calls[last].0, calls[last].1, id);
    }
  }

  lemma {:induction false} CallsKeepSound(t: Tables, calls: seq<(Call, nat)>)
    requires Sound(t) && FreshIds(t, calls)
    ensures Sound(Calls(t, calls)) && Extends(t, Calls(t, calls))
  {
    hide Sound, Extends, Execute;
    if calls == [] {
      ExtendsReflexive(t);
    } else {
      var last := |calls| - 1;
      assert forall i :: 0 <= i <= last ==> calls[..last][..i] == calls[..i];
      var u := Calls(t, calls[..last]);
      CallsKeepSound(t, calls[..last]);
      if Execute(u, calls[last].0, calls[last].1).Success? {
        ExecuteKeepsSound(u, calls[last].0, calls[last].1);
        ExtendsTransitive(t, u, Calls(t, calls));
      }
    }
  }
}
