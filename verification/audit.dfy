/** The audit log against what was committed, under any pattern of failed appends. */
module AuditTrail {
  import opened Decisions
  import opened RevisionChain
  import opened Interleaving
  import opened ObservedVersions

  /** A status change of one decision. */
  datatype Change = Change(id: nat, before: string, after: string)

  /** The changes the transition rows of the audit log tell of. */
  function Told(audits: seq<AuditRow>): multiset<Change> {
    if audits == [] then multiset{}
    else
      var a := audits[|audits| - 1];
      Told(audits[..|audits| - 1])
      + if a.action == "transition" then multiset{Change(a.entityId, a.before, a.after)} else multiset{}
  }

  function ChangeOf(c: Commit): multiset<Change> {
    if c.call.Transition? && c.found.Some?
    then multiset{Change(c.id, c.found.value.status, c.call.target)} else multiset{}
  }

  /** The status changes the committed transitions made to the rows they found. */
  function Made(commits: seq<Commit>): multiset<Change> {
    if commits == [] then multiset{}
    else Made(commits[..|commits| - 1]) + ChangeOf(commits[|commits| - 1])
  }

  /** The requests whose audit append has succeeded. */
  function Appended(es: seq<Event>): set<nat> {
    set e | e in es && e.Log? && e.stored :: e.k
  }

  /** The committed changes whose audit row is still to be appended, or lost. */
  function Untold(commits: seq<Commit>, appended: set<nat>): multiset<Change> {
    if commits == [] then multiset{}
    else
      var c := commits[|commits| - 1];
      Untold(commits[..|commits| - 1], appended) + if c.k in appended then multiset{} else ChangeOf(c)
  }

  function AppendedAfter(appended: set<nat>, e: Event): set<nat> {
    if e.Log? && e.stored then appended + {e.k} else appended
  }

  lemma AppendedOneMore(es: seq<Event>, i: nat)
    requires i < |es|
    ensures Appended(es[..i + 1]) == AppendedAfter(Appended(es[..i]), es[i])
  {
    assert es[..i + 1] == es[..i] + [es[i]];
  }

  // ---------- each request commits at most once, and then carries its own entry ----------

  ghost predicate Unfinished(p: Phase) {
    p.Arrived? || p.Checked?
  }

  ghost predicate OneCommitEach(m: Machine) {
    && (forall i, j :: 0 <= i < j < |m.commits| ==> m.commits[i].k != m.commits[j].k)
    && (forall c :: c in m.commits ==> c.k in m.flights && !Unfinished(m.flights[c.k].phase)
                                       && m.flights[c.k].call == c.call)
    && (forall k :: k in m.flights && m.flights[k].phase.HasEntry() ==>
          exists c :: c in m.commits && c.k == k && m.flights[k].phase.entry == AuditOf(c.call, c.copy, c.id))
  }

  lemma TransactKeepsOneCommitEach(m: Machine, k: nat, newId: nat)
    requires OneCommitEach(m) && Enabled(m, Transact(k, newId))
    ensures OneCommitEach(AfterTransact(m, k, newId))
  {
    hide Write, AuditOf;
    var c, m' := CommitOf(m, k, newId), AfterTransact(m, k, newId);
    if m'.commits == m.commits + [c] {
      assert c in m'.commits;
      forall j | j in m.flights && j != k && m.flights[j].phase.HasEntry()
        ensures exists d :: d in m'.commits && d.k == j && m.flights[j].phase.entry == AuditOf(d.call, d.copy, d.id)
      {
        var d :| d in m.commits && d.k == j && m.flights[j].phase.entry == AuditOf(d.call, d.copy, d.id);
        assert d in m'.commits;
      }
    }
  }

  /** A request moves on without committing: past its commit only if it was past it already, with the same entry. */
  lemma MoveKeepsOneCommitEach(m: Machine, m': Machine, k: nat)
    requires OneCommitEach(m) && m'.commits == m.commits && k in m'.flights
    requires m'.flights == m.flights[k := m'.flights[k]]
    requires k in m.flights ==> m'.flights[k].call == m.flights[k].call
    requires k in m.flights && !Unfinished(m.flights[k].phase) ==> !Unfinished(m'.flights[k].phase)
    requires m'.flights[k].phase.HasEntry() ==>
               k in m.flights && m.flights[k].phase.HasEntry() && m'.flights[k].phase.entry == m.flights[k].phase.entry
    ensures OneCommitEach(m')
  {
    hide AuditOf;
  }

  lemma StepKeepsOneCommitEach(m: Machine, e: Event, m': Machine)
    requires OneCommitEach(m) && Step(m, e, m')
    ensures OneCommitEach(m')
  {
    hide OneCommitEach, AfterTransact, Prepare, AuditOf, History;
    match e
    case Transact(k, newId) => TransactKeepsOneCommitEach(m, k, newId);
    case Open(_, _) => SameFlights(m, m');
    case ReadRow(_) => SameFlights(m, m');
    case ReadRevisions(_) => SameFlights(m, m');
    case _ => MoveKeepsOneCommitEach(m, m', e.k);
  }

  lemma SameFlights(m: Machine, m': Machine)
    requires OneCommitEach(m) && m'.commits == m.commits && m'.flights == m.flights
    ensures OneCommitEach(m')
  {
  }

  lemma NotYetCommitted(m: Machine, k: nat)
    requires OneCommitEach(m) && (k in m.flights ==> Unfinished(m.flights[k].phase))
    ensures forall c :: c in m.commits ==> c.k != k
  {
    hide AuditOf;
  }

  // ---------- what has been appended ----------

  /** A transition or a deletion that is past its append without an error has its entry in the log. */
  ghost predicate EntryOk(audits: seq<AuditRow>, appended: set<nat>, k: nat, f: Flight) {
    f.phase.HasEntry() && !f.phase.Written? && (f.call.Transition? || f.call.Delete?) ==>
      k in appended && f.phase.entry in audits
  }

  ghost predicate Settled(m: Machine, appended: set<nat>) {
    && (forall k :: k in appended ==>
          k in m.flights && !Unfinished(m.flights[k].phase) && !m.flights[k].phase.Written?)
    && (forall k :: k in m.flights ==> EntryOk(m.audits, appended, k, m.flights[k]))
  }

  lemma StepKeepsSettled(m: Machine, e: Event, m': Machine, appended: set<nat>)
    requires Settled(m, appended) && Step(m, e, m')
    ensures Settled(m', AppendedAfter(appended, e))
  {
    hide Prepare, Write, AuditOf, History, EntryOk;
    forall k | k in m'.flights
      ensures EntryOk(m'.audits, AppendedAfter(appended, e), k, m'.flights[k])
    {
      if k in m.flights && m'.flights[k] == m.flights[k] {
        EntryStaysOk(m.audits, m'.audits, appended, AppendedAfter(appended, e), k, m.flights[k]);
      } else {
        StepKeepsItsEntry(m, e, m', appended, k);
      }
    }
  }

  lemma EntryStaysOk(audits: seq<AuditRow>, audits': seq<AuditRow>, appended: set<nat>, appended': set<nat>,
                     k: nat, f: Flight)
    requires EntryOk(audits, appended, k, f) && audits <= audits' && appended <= appended'
    ensures EntryOk(audits', appended', k, f)
  {
  }

  lemma StepKeepsItsEntry(m: Machine, e: Event, m': Machine, appended: set<nat>, k: nat)
    requires Settled(m, appended) && Step(m, e, m')
    requires k in m'.flights && (k !in m.flights || m'.flights[k] != m.flights[k])
    ensures EntryOk(m'.audits, AppendedAfter(appended, e), k, m'.flights[k])
  {
    hide Prepare, Write, AuditOf, History;
    if e.Reply? {
      assert EntryOk(m.audits, appended, k, m.flights[k]);
    }
  }

  // ---------- telling one change ----------

  lemma {:induction false} NobodyToldYet(commits: seq<Commit>, appended: set<nat>, k: nat)
    requires forall c :: c in commits ==> c.k != k
    ensures Untold(commits, appended + {k}) == Untold(commits, appended)
  {
    hide ChangeOf;
    if commits != [] {
      NobodyToldYet(commits[..|commits| - 1], appended, k);
    }
  }

  /** The append of a request takes the change of its one commit, and no other, out of the untold ones. */
  lemma {:induction false} OneTold(commits: seq<Commit>, appended: set<nat>, at: nat)
    requires at < |commits| && commits[at].k !in appended
    requires forall i :: 0 <= i < |commits| && i != at ==> commits[i].k != commits[at].k
    ensures Untold(commits, appended) == Untold(commits, appended + {commits[at].k}) + ChangeOf(commits[at])
  {
    hide ChangeOf;
    var last := |commits| - 1;
    if at == last {
      NobodyToldYet(commits[..last], appended, commits[at].k);
    } else {
      assert commits[..last][at] == commits[at];
      OneTold(commits[..last], appended, at);
    }
  }

  // ---------- conformance ----------

  ghost predicate Conforms(m: Machine, appended: set<nat>) {
    Told(m.audits) + Untold(m.commits, appended) == Made(m.commits)
  }

  /** The audit row of a commit: who asked, what the commit found, and what it left. */
  ghost predicate Describes(entry: AuditRow, c: Commit) {
    match c.call
    case Transition(id, _, target, reason, actor, _, requestId) =>
      && c.found.Some?
      && entry == AuditRow(Or(actor, "system"), Or(requestId, "untracked"), "transition", ENTITY, id,
                           c.found.value.status, target, reason)
    case Delete(id, actor, requestId) =>
      entry == AuditRow(Or(actor, "system"), Or(requestId, "untracked"), "delete", ENTITY, id,
                        DRAFT, "deleted", "soft deleted")
    case Create(_, _, actor, requestId) =>
      && c.found.None?
      && entry == AuditRow(Or(actor, "system"), Or(requestId, "untracked"), "create", ENTITY, c.id,
                           "", DRAFT, "created")
    case Update(id, _, _, actor, _, requestId) =>
      && c.found.Some?
      && entry == AuditRow(Or(actor, "system"), Or(requestId, "untracked"), "update", ENTITY, id,
                           c.found.value.status, DRAFT, "updated business fields")
  }

  /** The entry a request appends describes exactly its commit. */
  ghost predicate Faithful(c: Commit) {
    Describes(AuditOf(c.call, c.copy, c.id), c)
  }

  lemma FaithfulEntryTellsTheChange(c: Commit)
    requires Faithful(c)
    ensures var a := AuditOf(c.call, c.copy, c.id);
            ChangeOf(c)
            == if a.action == "transition" then multiset{Change(a.entityId, a.before, a.after)} else multiset{}
    ensures c.call.Transition? ==> c.found.Some?
  {
    assert |"transition"| == 10 && |"delete"| == 6 && |"create"| == 6 && |"update"| == 6;
  }

  lemma TransactKeepsConformance(m: Machine, k: nat, newId: nat, appended: set<nat>)
    requires Conforms(m, appended) && k !in appended && Enabled(m, Transact(k, newId))
    ensures Conforms(AfterTransact(m, k, newId), appended)
  {
    hide Write, AuditOf, Told, Made, Untold;
    if AfterTransact(m, k, newId).commits != m.commits {
      CommitAddsItsChange(m.commits, appended, CommitOf(m, k, newId));
    }
  }

  lemma CommitAddsItsChange(commits: seq<Commit>, appended: set<nat>, c: Commit)
    requires c.k !in appended
    ensures Untold(commits + [c], appended) == Untold(commits, appended) + ChangeOf(c)
    ensures Made(commits + [c]) == Made(commits) + ChangeOf(c)
  {
    hide ChangeOf;
    assert (commits + [c])[..|commits|] == commits;
  }

  lemma AppendKeepsConformance(m: Machine, k: nat, failed: bool, appended: set<nat>)
    requires Conforms(m, appended) && OneCommitEach(m) && k !in appended && Enabled(m, Log(k, true, failed))
    requires forall c :: c in m.commits ==> Faithful(c)
    ensures Conforms(AfterLog(m, k, true, failed), appended + {k})
  {
    hide AuditOf, ChangeOf, Faithful, Told, Made, Untold;
    var entry := m.flights[k].phase.entry;
    var c :| c in m.commits && c.k == k && entry == AuditOf(c.call, c.copy, c.id);
    var at :| 0 <= at < |m.commits| && m.commits[at] == c;
    OneTold(m.commits, appended, at);
    FaithfulEntryTellsTheChange(c);
    ToldOneMore(m.audits, entry);
  }

  lemma ToldOneMore(audits: seq<AuditRow>, a: AuditRow)
    ensures Told(audits + [a]) == Told(audits) + if a.action == "transition"
                                                 then multiset{Change(a.entityId, a.before, a.after)} else multiset{}
  {
    assert (audits + [a])[..|audits|] == audits;
  }

  lemma StepKeepsConformance(m: Machine, e: Event, m': Machine, appended: set<nat>)
    requires Conforms(m, appended) && OneCommitEach(m) && Settled(m, appended) && Step(m, e, m')
    requires forall c :: c in m.commits ==> Faithful(c)
    ensures Conforms(m', AppendedAfter(appended, e))
  {
    hide Told, Made, Untold, OneCommitEach, AfterTransact, Prepare, Faithful, History;
    if e.Transact? {
      TransactKeepsConformance(m, e.k, e.newId, appended);
    } else if e.Log? && e.stored {
      AppendKeepsConformance(m, e.k, e.failed, appended);
    }
  }

  lemma StepKeepsFaithful(m: Machine, e: Event, m': Machine)
    requires Inv(m) && AllSeen(m) && Step(m, e, m')
    requires forall c :: c in m.commits ==> Faithful(c)
    ensures forall c :: c in m'.commits ==> Faithful(c)
  {
    hide Inv, AllSeen, Faithful, Write, Prepare, AuditOf, History;
    if e.Transact? && Write(m.tables, m.flights[e.k].call, m.flights[e.k].phase.copy, e.newId).Success? {
      CommitIsFaithful(m, e.k, e.newId);
    }
  }

  lemma CommitIsFaithful(m: Machine, k: nat, newId: nat)
    requires Inv(m) && AllSeen(m) && Enabled(m, Transact(k, newId))
    requires Write(m.tables, m.flights[k].call, m.flights[k].phase.copy, newId).Success?
    ensures Faithful(CommitOf(m, k, newId))
  {
    assert FlightOk(m.tables, m.flights[k]);
    hide Inv, AllSeen;
    if m.flights[k].call.Edits() {
      CheckedCopyIsFresh(m, k);
    } else if m.flights[k].call.Create? {
      assert |"create"| == |"delete"| && "create"[0] != "delete"[0];
    }
  }

  // ---------- runs ----------

  lemma {:induction false} RunKeepsSettled(ms: seq<Machine>, es: seq<Event>, i: nat)
    requires Run(ms, es) && i < |ms|
    ensures OneCommitEach(ms[i]) && Settled(ms[i], Appended(es[..i]))
  {
    hide Step, Sound, OneCommitEach, Settled;
    if i > 0 {
      RunKeepsSettled(ms, es, i - 1);
      assert Step(ms[i - 1], es[i - 1], ms[i]);
      StepKeepsOneCommitEach(ms[i - 1], es[i - 1], ms[i]);
      StepKeepsSettled(ms[i - 1], es[i - 1], ms[i], Appended(es[..i - 1]));
      AppendedOneMore(es, i - 1);
    } else {
      NothingCommitted(ms[0]);
    }
  }

  lemma NothingCommitted(m: Machine)
    requires Start(m)
    ensures OneCommitEach(m) && Settled(m, Appended([])) && Conforms(m, Appended([]))
  {
  }

  lemma {:induction false} RunKeepsConformance(ms: seq<Machine>, es: seq<Event>, i: nat)
    requires ObservedRun(ms, es) && i < |ms|
    ensures Conforms(ms[i], Appended(es[..i])) && forall c :: c in ms[i].commits ==> Faithful(c)
  {
    hide Step, Sound, WellShaped, Observed, OneCommitEach, Settled, Faithful, Conforms;
    if i > 0 {
      RunKeepsConformance(ms, es, i - 1);
      RunKeepsSettled(ms, es, i - 1);
      RunKeepsSeen(ms, es, i - 1);
      assert Step(ms[i - 1], es[i - 1], ms[i]);
      StepKeepsConformance(ms[i - 1], es[i - 1], ms[i], Appended(es[..i - 1]));
      StepKeepsFaithful(ms[i - 1], es[i - 1], ms[i]);
      AppendedOneMore(es, i - 1);
    } else {
      NothingCommitted(ms[0]);
    }
  }

  /** Nothing is left untold exactly when every committed transition has been appended. */
  lemma {:induction false} NothingUntoldExactlyWhen(commits: seq<Commit>, appended: set<nat>)
    requires forall c :: c in commits && c.call.Transition? ==> c.found.Some?
    ensures Untold(commits, appended) == multiset{}
            <==> forall c :: c in commits && c.call.Transition? ==> c.k in appended
  {
    if commits != [] {
      var last := |commits| - 1;
      assert commits == commits[..last] + [commits[last]];
      NothingUntoldExactlyWhen(commits[..last], appended);
      UntoldOneMore(Untold(commits[..last], appended), commits[last], appended);
    }
  }

  lemma UntoldOneMore(earlier: multiset<Change>, c: Commit, appended: set<nat>)
    requires c.call.Transition? ==> c.found.Some?
    ensures earlier + (if c.k in appended then multiset{} else ChangeOf(c)) == multiset{}
            <==> earlier == multiset{} && (c.call.Transition? ==> c.k in appended)
  {
    if c.call.Transition? && c.k !in appended {
      assert Change(c.id, c.found.value.status, c.call.target) in earlier + ChangeOf(c);
    }
  }

  /**
   The audit log never tells of a status change that was not committed, nor of one more often than it was
   committed; and it tells of exactly the committed ones if and only if the audit append of every committed
   transition has succeeded.
   */
  lemma AuditTellsOfCommittedChanges(ms: seq<Machine>, es: seq<Event>, i: nat)
    requires ObservedRun(ms, es) && i < |ms|
    ensures Told(ms[i].audits) <= Made(ms[i].commits)
    ensures Told(ms[i].audits) == Made(ms[i].commits)
            <==> forall c :: c in ms[i].commits && c.call.Transition? ==> c.k in Appended(es[..i])
  {
    assert |ms| == |es| + 1;
    hide ObservedRun, Told, Made, Untold, OneCommitEach, Faithful;
    var m, appended := ms[i], Appended(es[..i]);
    RunKeepsConformance(ms, es, i);
    forall c | c in m.commits && c.call.Transition?
      ensures c.found.Some?
    {
      FaithfulEntryTellsTheChange(c);
    }
    NothingUntoldExactlyWhen(m.commits, appended);
    NothingAddedExactlyWhen(Told(m.audits), Untold(m.commits, appended));
  }

  lemma NothingAddedExactlyWhen(a: multiset<Change>, b: multiset<Change>)
    ensures a == a + b <==> b == multiset{}
  {
    if b != multiset{} {
      var x :| x in b;
      assert (a + b)[x] == a[x] + b[x];
    }
  }

  /** When every committed transition has been answered with success, the log tells of all of them. */
  lemma AnsweredTransitionsAreTold(ms: seq<Machine>, es: seq<Event>, i: nat)
    requires ObservedRun(ms, es) && i < |ms|
    requires forall c :: c in ms[i].commits && c.call.Transition? ==>
               c.k in ms[i].flights && ms[i].flights[c.k].phase.Succeeded?
    ensures Told(ms[i].audits) == Made(ms[i].commits)
  {
    assert |ms| == |es| + 1;
    hide ObservedRun, Told, Made, AuditOf;
    AuditTellsOfCommittedChanges(ms, es, i);
    RunKeepsSettled(ms, es, i);
    forall c | c in ms[i].commits && c.call.Transition?
      ensures c.k in Appended(es[..i])
    {
      assert EntryOk(ms[i].audits, Appended(es[..i]), c.k, ms[i].flights[c.k]);
    }
  }

  // ---------- every row has its commit ----------

  ghost predicate AllDescribe(m: Machine) {
    forall a :: a in m.audits ==> exists c :: c in m.commits && c.k in m.flights && a == AuditOf(c.call, c.copy, c.id)
  }

  lemma StepKeepsDescribing(m: Machine, e: Event, m': Machine)
    requires OneCommitEach(m) && AllDescribe(m) && Step(m, e, m')
    ensures AllDescribe(m')
  {
    StepAppendsOwnEntry(m, e, m');
    hide OneCommitEach, Step, AuditOf;
    forall a | a in m'.audits
      ensures exists c :: c in m'.commits && c.k in m'.flights && a == AuditOf(c.call, c.copy, c.id)
    {
      var c :| c in m.commits && c.k in m.flights && a == AuditOf(c.call, c.copy, c.id);
      assert c in m'.commits && c.k in m'.flights;
    }
  }

  lemma StepAppendsOwnEntry(m: Machine, e: Event, m': Machine)
    requires OneCommitEach(m) && Step(m, e, m')
    ensures m.commits <= m'.commits && m.flights.Keys <= m'.flights.Keys
    ensures forall a :: a in m'.audits ==>
              a in m.audits || exists c :: c in m.commits && c.k in m.flights && a == AuditOf(c.call, c.copy, c.id)
  {
    hide Prepare, Write, AuditOf, History;
    if e.Log? {
      var c :| c in m.commits && c.k == e.k && m.flights[e.k].phase.entry == AuditOf(c.call, c.copy, c.id);
    }
  }

  lemma {:induction false} RunKeepsDescribing(ms: seq<Machine>, es: seq<Event>, i: nat)
    requires Run(ms, es) && i < |ms|
    ensures AllDescribe(ms[i])
  {
    hide Step, Sound, OneCommitEach, Settled, AllDescribe;
    if i > 0 {
      RunKeepsDescribing(ms, es, i - 1);
      RunKeepsSettled(ms, es, i - 1);
      assert Step(ms[i - 1], es[i - 1], ms[i]);
      StepKeepsDescribing(ms[i - 1], es[i - 1], ms[i]);
    } else {
      NothingIsDescribed(ms[0]);
    }
  }

  lemma NothingIsDescribed(m: Machine)
    requires Start(m)
    ensures AllDescribe(m)
  {
  }

  /**
   No row of the log, of whatever action, is without its commit: each names the caller and the request of a committed
   call, the status that call found and the one it left.
   */
  lemma EveryEntryDescribesACommit(ms: seq<Machine>, es: seq<Event>, i: nat, entry: AuditRow)
    requires ObservedRun(ms, es) && i < |ms| && entry in ms[i].audits
    ensures exists c :: c in ms[i].commits && Describes(entry, c)
  {
    hide Run, WellShaped, Observed, AuditOf, Conforms, Describes;
    RunKeepsConformance(ms, es, i);
    RunKeepsDescribing(ms, es, i);
    var c :| c in ms[i].commits && entry == AuditOf(c.call, c.copy, c.id);
    assert Faithful(c) && Describes(entry, c);
  }

  // ---------- a reported transition has its row ----------

  /**
   A transition or a deletion that reports success committed, and has its row in the log, failed appends of
   others notwithstanding: the row names the caller, the request, the status the commit found and the one it left.
   */
  lemma ReportedSuccessIsLogged(ms: seq<Machine>, es: seq<Event>, i: nat, k: nat)
    requires ObservedRun(ms, es) && i < |ms| && k in ms[i].flights && ms[i].flights[k].phase.Succeeded?
    requires ms[i].flights[k].call.Transition? || ms[i].flights[k].call.Delete?
    ensures exists c, entry :: c in ms[i].commits && c.k == k && c.call == ms[i].flights[k].call
                               && entry in ms[i].audits && Describes(entry, c)
  {
    assert |ms| == |es| + 1;
    hide ObservedRun, AuditOf, Conforms, Describes;
    RunKeepsConformance(ms, es, i);
    RunKeepsSettled(ms, es, i);
    var m := ms[i];
    var entry := m.flights[k].phase.entry;
    assert EntryOk(m.audits, Appended(es[..i]), k, m.flights[k]);
    var c :| c in m.commits && c.k == k && entry == AuditOf(c.call, c.copy, c.id);
    assert Faithful(c) && Describes(entry, c);
  }
}
